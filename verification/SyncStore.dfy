/** The PostgreSQL store as a mutable object, with the one transaction a call runs in. */
module SyncStoreModel {
  import opened Text
  import opened Records
  import opened Tables
  import opened Authorization
  import opened Canonical
  import opened PushSpec
  import opened PullSpec
  import opened ScheduleSpec

  class SyncStore {
    const env: Env
    var rows: Rows                        // the ten entity tables
    var log: seq<LogRow>                  // sync_change_log
    var nextId: nat                       // the sequence behind change_id
    var processed: set<(string, string)>  // sync_processed_mutations
    var counter: nat                      // sync_counters, scope student_code
    var audit: seq<AuditRow>              // audit_logs
    var aborted: bool                     // a statement of the transaction has failed
    var saved: Db                         // the state at Begin

    constructor (env: Env)
      ensures this.env == env && State() == EMPTY_DB && !aborted
    {
      this.env := env;
      rows, log, nextId := map[], [], 1;
      processed, counter, audit := {}, 0, [];
      aborted, saved := false, EMPTY_DB;
    }

    /** Everything the transaction sees. */
    function State(): Db
      reads this
    {
      Db(Core(rows, log, nextId), processed, counter, audit)
    }

    method Begin()
      modifies this
      ensures State() == old(State()) && saved == State() && !aborted
    {
      saved, aborted := State(), false;
    }

    /** Everything goes back to the state at Begin, except that a sequence does not give ids back. */
    method Rollback()
      modifies this
      ensures State() == old(saved).(core := old(saved).core.(nextId := old(nextId)))
    {
      rows, log := saved.core.rows, saved.core.log;
      processed, counter, audit := saved.processed, saved.counter, saved.audit;
      aborted := false;
    }

    /** Committing a transaction in which a statement failed rolls it back. */
    method Commit() returns (ok: bool)
      modifies this
      ensures ok == !old(aborted)
      ensures State() == if ok then old(State()) else old(saved).(core := old(saved).core.(nextId := old(nextId)))
    {
      ok := !aborted;
      if !ok {
        Rollback();
      }
    }

    method IsMutationProcessed(device: string, mutationId: string) returns (ok: bool, found: bool)
      ensures ok == !aborted
      ensures found == ((device, mutationId) in processed)
    {
      ok, found := !aborted, (device, mutationId) in processed;
    }

    method GetRecordForUpdate(entity: EntityName, id: string) returns (ok: bool, existing: Option<Row>)
      ensures ok == (!aborted && !entity.OtherEntity?)
      ensures existing == Lookup(rows, entity, id)
    {
      ok, existing := !aborted && !entity.OtherEntity?, Lookup(rows, entity, id);
    }

    /** The upsert and its log row. A payload that cannot be turned into columns fails before anything is
        sent; a violated constraint fails in the database and aborts the transaction. */
    method UpsertRecord(rec: Record, now: Time) returns (ok: bool)
      modifies this`rows, this`log, this`nextId, this`aborted
      ensures ok == (!old(aborted) && Write(env, old(State()).core, rec, now).Some?)
      ensures State() == if ok then old(State()).(core := Write(env, old(State()).core, rec, now).value)
        else old(State())
      ensures aborted == (old(aborted) || (!ok && ToRow(env, rec).Some?))
      ensures nextId >= old(nextId)
    {
      if aborted {
        return false;
      }
      var row := ToRow(env, rec);
      if row.None? {
        return false;
      }
      if !ForeignKeysHold(env.users, rows, row.value.body) || !FitsIndexes(rows, KeyOf(rec), row.value) {
        aborted := true;
        return false;
      }
      rows := Put(rows, KeyOf(rec), row.value);
      log := log + [LogRow(nextId, rec, now)];
      nextId := nextId + 1;
      return true;
    }

    /** UpsertAttendanceRecordsBatch and UpsertStudentMessagesBatch: all records, or an error. */
    method UpsertBatch(recs: seq<Record>, now: Time) returns (ok: bool)
      requires !aborted
      modifies this`rows, this`log, this`nextId, this`aborted
      ensures ok == WriteAll(env, old(State()).core, recs, now).Some?
      ensures ok ==> !aborted && State() == old(State()).(core := WriteAll(env, old(State()).core, recs, now).value)
      ensures nextId >= old(nextId)
    {
      ok := true;
      for i := 0 to |recs|
        invariant !aborted && nextId >= old(nextId)
        invariant WriteAll(env, old(State()).core, recs[..i], now) == Some(State().core)
        invariant State() == old(State()).(core := State().core)
      {
        assert recs[..i + 1][..i] == recs[..i];
        ok := UpsertRecord(recs[i], now);
        if !ok {
          if WriteAll(env, old(State()).core, recs, now).Some? {
            WriteAllPrefix(env, old(State()).core, recs, i + 1, now);
          }
          return;
        }
      }
      assert recs[..|recs|] == recs;
    }

    method SaveProcessedMutation(device: string, mutationId: string) returns (ok: bool)
      modifies this`processed
      ensures ok == !aborted
      ensures processed == if ok then old(processed) + {(device, mutationId)} else old(processed)
    {
      ok := !aborted;
      if ok {
        processed := processed + {(device, mutationId)};
      }
    }

    method InsertAuditLog(row: AuditRow) returns (ok: bool)
      modifies this`audit
      ensures ok == !aborted
      ensures audit == if ok then old(audit) + [row] else old(audit)
    {
      ok := !aborted;
      if ok {
        audit := audit + [row];
      }
    }

    method NextStudentCode() returns (code: string)
      modifies this`counter
      ensures counter == old(counter) + 1 && code == StudentCode(counter)
    {
      counter := counter + 1;
      code := StudentCode(counter);
    }

    /** The student's schedule rows by weekday. */
    method ReadSchedules(studentId: string) returns (existing: map<string, Record>)
      ensures existing == Existing(env, rows, studentId)
    {
      existing := map[];
      var order := env.listing(ScheduleIds(rows, studentId));
      for i := 0 to |order|
        invariant existing == ByWeekday(env, rows, order[..i])
      {
        assert order[..i + 1][..i] == order[..i];
        var row := Lookup(rows, StudentSchedules, order[i]);
        if row.Some? && row.value.body.StudentSchedule? {
          existing := existing[row.value.body.weekday := FromRow(env, order[i], row.value)];
        }
      }
      assert order[..|order|] == order;
    }

    /** The requested weekdays, written one by one. */
    method WriteDays(existing: map<string, Record>, studentId: string, weekdays: seq<string>, now: Time)
      returns (ok: bool, incoming: set<string>)
      requires !aborted
      modifies this`rows, this`log, this`nextId, this`aborted
      ensures ok == WriteAll(env, old(State()).core, DayRecords(env, existing, studentId, weekdays, now), now).Some?
      ensures ok ==>
        && !aborted && incoming == (set w | w in weekdays)
        && State()
             == old(State()).(core := WriteAll(env, old(State()).core,
                                               DayRecords(env, existing, studentId, weekdays, now), now).value)
      ensures nextId >= old(nextId)
    {
      hide DayRecord, Write;
      ghost var recs := DayRecords(env, existing, studentId, weekdays, now);
      ok, incoming := true, {};
      for i := 0 to |weekdays|
        invariant !aborted && nextId >= old(nextId)
        invariant incoming == set w | w in weekdays[..i]
        invariant WriteAll(env, old(State()).core, recs[..i], now) == Some(State().core)
        invariant State() == old(State()).(core := State().core)
      {
        assert recs[..i + 1][..i] == recs[..i];
        assert weekdays[..i + 1] == weekdays[..i] + [weekdays[i]];
        incoming := incoming + {weekdays[i]};
        ok := UpsertRecord(DayRecord(env, existing, studentId, weekdays[i], now), now);
        if !ok {
          if WriteAll(env, old(State()).core, recs, now).Some? {
            WriteAllPrefix(env, old(State()).core, recs, i + 1, now);
          }
          return;
        }
      }
      assert recs[..|recs|] == recs && weekdays[..|weekdays|] == weekdays;
    }

    /** The stored weekdays that were not requested get a tombstone, in the order the map is visited. */
    method DropDays(existing: map<string, Record>, weekdays: seq<string>, incoming: set<string>, now: Time)
      returns (ok: bool)
      requires !aborted && ValidEnv(env) && incoming == set w | w in weekdays
      modifies this`rows, this`log, this`nextId, this`aborted
      ensures var recs := DropRecords(env, existing, Dropped(env, existing, weekdays), now);
        && ok == WriteAll(env, old(State()).core, recs, now).Some?
        && (ok ==> !aborted && State() == old(State()).(core := WriteAll(env, old(State()).core, recs, now).value))
      ensures nextId >= old(nextId)
    {
      hide DropRecord, ValidEnv, Write, Unrequested;
      var order := env.listing(existing.Keys);
      ghost var dropped := Dropped(env, existing, weekdays);
      ghost var recs := DropRecords(env, existing, dropped, now);
      DroppedIsUnrequested(env, existing, weekdays);
      hide Dropped;
      UnrequestedStart(order, weekdays);
      ok := true;
      ghost var n := 0;
      for i := 0 to |order|
        invariant !aborted && nextId >= old(nextId)
        invariant n <= |dropped| && Unrequested(order[..i], weekdays) == dropped[..n]
        invariant WriteAll(env, old(State()).core, recs[..n], now) == Some(State().core)
        invariant State() == old(State()).(core := State().core)
      {
        UnrequestedNext(order, weekdays, i, n);
        if order[i] !in incoming {
          assert recs[..n + 1][..n] == recs[..n];
          assert dropped[n] in dropped;
          ok := UpsertRecord(DropRecord(env, existing[order[i]], now), now);
          if !ok {
            if WriteAll(env, old(State()).core, recs, now).Some? {
              WriteAllPrefix(env, old(State()).core, recs, n + 1, now);
            }
            return;
          }
          n := n + 1;
        }
      }
      assert order[..|order|] == order;
      assert dropped[..n] == dropped;
      assert recs[..n] == recs;
    }

    method ReplaceStudentSchedule(studentId: string, mode: string, weekdays: seq<string>, now: Time) returns (ok: bool)
      requires !aborted && ValidEnv(env)
      modifies this`rows, this`log, this`nextId, this`aborted
      ensures var result := ReplaceSchedule(env, old(State()).core, studentId, mode, weekdays, now);
        && ok == result.Some?
        && (ok ==> !aborted && State() == old(State()).(core := result.value))
      ensures nextId >= old(nextId)
    {
      hide WriteAll, Write, ValidEnv, Existing, DayRecords, DropRecords, Dropped, ProfileRecord;
      ghost var core := State().core;
      ghost var existing' := Existing(env, rows, studentId);
      ghost var profile := ProfileRecord(env, rows, studentId, mode, now);
      ghost var days := DayRecords(env, existing', studentId, weekdays, now);
      ghost var drops := DropRecords(env, existing', Dropped(env, existing', weekdays), now);
      InThreeParts(env, core, profile, days, drops, now);
      ok := UpsertRecord(ProfileRecord(env, rows, studentId, mode, now), now);
      if !ok {
        return;
      }
      ProfileWriteKeepsSchedules(env, core, studentId, mode, now);
      var existing := ReadSchedules(studentId);
      var incoming;
      ok, incoming := WriteDays(existing, studentId, weekdays, now);
      if !ok {
        return;
      }
      ok := DropDays(existing, weekdays, incoming, now);
    }

    /** The rows after a cursor, in cursor order, at most `limit` of them. */
    method ListChangesSince(since: string, limit: nat) returns (ok: bool, page: seq<LogRow>)
      ensures ok == !ParseCursor(env, since).BadCursor?
      ensures ok ==>
        var sorted := InCursorOrder(log);
        var p := Position(sorted, ParseCursor(env, since));
        page == sorted[p..Min(p + limit, |sorted|)]
    {
      var cursor := ParseCursor(env, since);
      if cursor.BadCursor? {
        return false, [];
      }
      var sorted := InCursorOrder(log);
      var p := Position(sorted, cursor);
      return true, sorted[p..Min(p + limit, |sorted|)];
    }
  }

  lemma DroppedIsUnrequested(env: Env, existing: map<string, Record>, weekdays: seq<string>)
    requires ValidEnv(env)
    ensures Dropped(env, existing, weekdays) == Unrequested(env.listing(existing.Keys), weekdays)
  {
  }

  lemma UnrequestedStart(order: seq<string>, requested: seq<string>)
    ensures Unrequested(order[..0], requested) == []
  {
  }

  /** The next weekday of the listing, if it was not requested, is the next one to drop. */
  lemma {:induction false} UnrequestedNext(order: seq<string>, requested: seq<string>, i: nat, n: nat)
    requires i < |order| && n <= |Unrequested(order, requested)|
    requires Unrequested(order[..i], requested) == Unrequested(order, requested)[..n]
    ensures order[i] in requested ==> Unrequested(order[..i + 1], requested) == Unrequested(order, requested)[..n]
    ensures order[i] !in requested ==>
      && n < |Unrequested(order, requested)| && Unrequested(order, requested)[n] == order[i]
      && Unrequested(order[..i + 1], requested) == Unrequested(order, requested)[..n + 1]
  {
    assert order[..i + 1][..i] == order[..i];
    UnrequestedPrefix(order, requested, i + 1);
  }

  lemma {:induction false} UnrequestedPrefix(order: seq<string>, requested: seq<string>, i: nat)
    requires i <= |order|
    ensures Unrequested(order[..i], requested) <= Unrequested(order, requested)
  {
    if i < |order| {
      UnrequestedPrefix(order[..|order| - 1], requested, i);
      assert order[..|order| - 1][..i] == order[..i];
    } else {
      assert order[..i] == order;
    }
  }

  /** A replacement written in three parts. */
  lemma InThreeParts(env: Env, core: Core, first: Record, a: seq<Record>, b: seq<Record>, now: Time)
    ensures var one := Write(env, core, first, now);
      var two := if one.None? then None else WriteAll(env, one.value, a, now);
      var three := if two.None? then None else WriteAll(env, two.value, b, now);
      WriteAll(env, core, [first] + a + b, now) == three
  {
    hide Write;
    var all := [first] + a + b;
    assert [first][..0] == [];
    assert WriteAll(env, core, [first], now) == Write(env, core, first, now);
    if WriteAll(env, core, all, now).Some? {
      WriteAllPrefix(env, core, all, 1 + |a|, now);
      WriteAllPrefix(env, core, all, 1, now);
      assert all[..1 + |a|] == [first] + a && all[..1] == [first];
    }
    if Write(env, core, first, now).Some? {
      WriteAllAppend(env, core, [first], a, now);
      if WriteAll(env, core, [first] + a, now).Some? {
        WriteAllAppend(env, core, [first] + a, b, now);
      }
    }
  }

  /** Writing the profile does not touch the schedule rows. */
  lemma ProfileWriteKeepsSchedules(env: Env, core: Core, studentId: string, mode: string, now: Time)
    requires Write(env, core, ProfileRecord(env, core.rows, studentId, mode, now), now).Some?
    ensures var after := Write(env, core, ProfileRecord(env, core.rows, studentId, mode, now), now).value.rows;
      Existing(env, after, studentId) == Existing(env, core.rows, studentId)
  {
    hide ToRow, ForeignKeysHold, FitsIndexes;
    var after := Write(env, core, ProfileRecord(env, core.rows, studentId, mode, now), now).value.rows;
    assert forall id :: Lookup(after, StudentSchedules, id) == Lookup(core.rows, StudentSchedules, id);
    assert ScheduleIds(after, studentId) == ScheduleIds(core.rows, studentId) by {
      forall id
        ensures id in ScheduleIds(after, studentId) <==> id in ScheduleIds(core.rows, studentId)
      {
        var k := Key(StudentSchedules, id);
        assert id in ScheduleIds(after, studentId) <==>
          k in after && after[k].body.StudentSchedule? && after[k].body.studentId == studentId;
        assert id in ScheduleIds(core.rows, studentId) <==>
          k in core.rows && core.rows[k].body.StudentSchedule? && core.rows[k].body.studentId == studentId;
      }
    }
    SameByWeekday(env, core.rows, after, env.listing(ScheduleIds(after, studentId)));
  }

  lemma {:induction false} SameByWeekday(env: Env, rows: Rows, after: Rows, order: seq<string>)
    requires forall id :: Lookup(after, StudentSchedules, id) == Lookup(rows, StudentSchedules, id)
    ensures ByWeekday(env, after, order) == ByWeekday(env, rows, order)
  {
    if order != [] {
      SameByWeekday(env, rows, after, order[..|order| - 1]);
    }
  }
}
