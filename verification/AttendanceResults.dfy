/** The main results about attendance: whole requests, atomic actions, bulk marking, notes, and the delete cascade. */
module AttendanceResults {
  import opened Text
  import opened Records
  import opened Tables
  import opened Lookups
  import opened History
  import opened Authorization
  import opened Canonical
  import opened CanonicalProofs
  import opened PushSpec
  import opened AttendanceSpec
  import opened AttendanceProofs

  // ----- whole requests -------------------------------------------------------

  /** What one round of the loop does, by outcome: a done action is marked processed, a refused one is not,
      and one done before changes nothing. */
  lemma ActionOneEffect(env: Env, caller: Caller, device: string, now: Time, db: Db, a: Action)
    requires Ready(env, db, now)
    requires ActionOne(env, caller, device, now, db, a).Round?
    ensures var Round(after, outcome) := ActionOne(env, caller, device, now, db, a);
      && Ready(env, after, now)
      && Evolves(env, db.core, after.core, now, true)
      && db.audit <= after.audit && after.counter == db.counter
      && after.processed == db.processed + (if outcome.Done? then {(device, a.actionId)} else {})
      && (outcome.DoneBefore? <==> (device, a.actionId) in db.processed)
      && (outcome.DoneBefore? ==> after == db)
  {
    ProgressNothing(env, db, now);
    hide ApplyAction, Invariant, NotAfter, Evolves;
    ActionProgress(env, caller, now, db, a);
    var step := ApplyAction(env, caller, now, db, a);
    if !step.ActionError? {
      ProgressKeepsReady(env, db, step.db, now);
    }
  }

  lemma ProgressKeepsReady(env: Env, before: Db, after: Db, now: Time)
    requires Ready(env, before, now) && Progress(env, before, after, now)
    ensures Ready(env, after, now)
  {
    ProgressKeepsTags(env, before, after, now);
    hide *;
  }

  /** A whole request is one serial transaction of orderly writes; the processed set grows by the done actions,
      and each of them was new. */
  lemma {:induction false} ActionsEvolve(env: Env, caller: Caller, device: string, now: Time, db: Db,
                                         actions: seq<Action>)
    requires Ready(env, db, now)
    requires ActionsAll(env, caller, device, now, db, actions).ActionsPushed?
    ensures var ActionsPushed(after, outcomes) := ActionsAll(env, caller, device, now, db, actions);
      && |outcomes| == |actions|
      && Ready(env, after, now)
      && Evolves(env, db.core, after.core, now, true)
      && (forall i | 0 <= i < |actions| && outcomes[i].Done? ::
            (device, actions[i].actionId) !in db.processed && (device, actions[i].actionId) in after.processed)
      && db.processed <= after.processed
  {
    hide Ready, Evolves, ActionOne;
    if actions == [] {
      EvolvesNothing(env, db.core, now, true);
    } else {
      var n := |actions| - 1;
      ActionsEvolve(env, caller, device, now, db, actions[..n]);
      var before := ActionsAll(env, caller, device, now, db, actions[..n]).db;
      ActionOneEffect(env, caller, device, now, before, actions[n]);
      var after := ActionsAll(env, caller, device, now, db, actions).db;
      EvolvesTogether(env, db.core, before.core, after.core, now, true);
    }
  }

  // ----- atomic actions -------------------------------------------------------

  /** The actions that write nothing before their last check. */
  predicate ChecksFirst(body: ActionBody) {
    body.SetRecordStatus? || body.MarkAllPresent? || body.SetSessionNote? || body.SetSessionStatus?
  }

  /** Reported as a conflict, such an action has left the database alone. */
  lemma AtomicActions(env: Env, caller: Caller, now: Time, db: Db, a: Action)
    requires ChecksFirst(a.body) && ApplyAction(env, caller, now, db, a).Reported?
    ensures ApplyAction(env, caller, now, db, a).db == db
  {
    hide Save, WriteAll, CanonicalizeAll, LoadRecord, LoadSession;
  }

  /** A write changes its own row and no other. */
  lemma WriteTouchesOne(env: Env, core: Core, rec: Record, now: Time)
    requires Write(env, core, rec, now).Some?
    ensures var after := Write(env, core, rec, now).value;
      && ToRow(env, rec).Some?
      && after.rows == Put(core.rows, KeyOf(rec), ToRow(env, rec).value)
      && after.log == core.log + [LogRow(core.nextId, rec, now)]
      && after.nextId == core.nextId + 1
  {
  }

  // ----- batches over listed rows ------------------------------------------------

  /** The listed keys of one table. */
  ghost function KeysIn(entity: EntityName, ids: set<string>): set<Key> {
    set id | id in ids :: Key(entity, id)
  }

  /** A batch written for the ids of a listing, in that order. */
  ghost predicate BatchFor(recs: seq<Record>, entity: EntityName, order: seq<string>) {
    |recs| == |order| && forall i | 0 <= i < |recs| :: KeyOf(recs[i]) == Key(entity, order[i])
  }

  /** What such a batch leaves in the tables: each listed row holds its record, the other rows are as they were. */
  lemma BatchForEffect(env: Env, core: Core, recs: seq<Record>, entity: EntityName, order: seq<string>,
                       ids: set<string>, now: Time)
    requires WriteAll(env, core, recs, now).Some?
    requires Lists(order, ids) && BatchFor(recs, entity, order)
    ensures var after := WriteAll(env, core, recs, now).value;
      && core.rows.Keys <= after.rows.Keys
      && (forall k | k in after.rows && k !in KeysIn(entity, ids) :: k in core.rows && after.rows[k] == core.rows[k])
      && (forall i | 0 <= i < |recs| :: HoldsRecord(env, core.rows, after.rows, recs[i]))
  {
    hide WriteAll, HoldsRecord;
    WriteAllEffect(env, core, recs, now);
    var after := WriteAll(env, core, recs, now).value;
    forall i, j | 0 <= i < j < |recs|
      ensures KeyOf(recs[i]) != KeyOf(recs[j])
    {
      assert order[i] != order[j];
    }
    forall i: nat | i < |recs|
      ensures HoldsRecord(env, core.rows, after.rows, recs[i])
    {
      WriteAllRows(env, core, recs, now, i);
    }
    forall k | k in after.rows && k !in KeysIn(entity, ids)
      ensures k in core.rows && after.rows[k] == core.rows[k]
    {
      forall i | 0 <= i < |recs|
        ensures KeyOf(recs[i]) != k
      {
        assert order[i] in order;
        assert Key(entity, order[i]) in KeysIn(entity, ids);
      }
    }
  }

  // ----- the delete cascade -----------------------------------------------------

  /** The row a tombstone is stored as: all columns but the three times, and untrimmed message text, survive. */
  function Tombstone(row: Row, now: Time): Row {
    Row(row.createdAt, now, now, Some(now),
        if row.body.Message? then row.body.(content := TrimSpace(row.body.content)) else row.body)
  }

  lemma TombstoneStored(env: Env, id: string, row: Row, rec: Record, now: Time)
    requires ValidEnv(env) && (row.body.Attendance? || row.body.Message?)
    requires CanonicalOf(env, Delete, FromRow(env, id, row), rec, now)
    ensures ToRow(env, rec) == Some(Tombstone(row, now))
  {
    FormattedNotEmpty(env, row.createdAt, 0);
    ColumnsRoundTrip(env, Tombstone(row, now).body);
    assert env.parseTime(env.formatTime(row.createdAt)) == Some(row.createdAt);
    assert env.parseTime(env.formatTime(now)) == Some(now);
    assert rec.body == FromColumns(env, Tombstone(row, now).body);
    hide FromColumns, ToColumns;
  }

  /** The log after deleting listed rows of one table: one tombstone for each, in listing order. */
  ghost predicate TombstonedLog(env: Env, before: seq<LogRow>, after: seq<LogRow>, entity: EntityName,
                                order: seq<string>) {
    && before <= after
    && |after| == |before| + |order|
    && forall i | |before| <= i < |after| ::
         KeyOf(after[i].record) == Key(entity, order[i - |before|]) && after[i].record.deletedAt.Some?
  }

  /** The tables after it: each listed row has its tombstone, no other row has changed. */
  ghost predicate TombstonedRows(before: Rows, after: Rows, entity: EntityName, ids: set<string>, now: Time) {
    && before.Keys <= after.Keys
    && (forall k | k in after && k !in KeysIn(entity, ids) :: k in before && after[k] == before[k])
    && (forall id | id in ids ::
          Key(entity, id) in before && Key(entity, id) in after
          && after[Key(entity, id)] == Tombstone(before[Key(entity, id)], now))
  }

  ghost predicate Tombstoned(env: Env, before: Core, after: Core, entity: EntityName, ids: set<string>, now: Time) {
    && TombstonedLog(env, before.log, after.log, entity, env.listing(ids))
    && TombstonedRows(before.rows, after.rows, entity, ids, now)
  }

  /** The batch delete_session writes for listed rows: a tombstone for each, in listing order. */
  lemma DeletedRecords(env: Env, rows: Rows, entity: EntityName, order: seq<string>, now: Time)
    requires ValidEnv(env) && Tagged(rows) && (entity == AttendanceRecords || entity == StudentMessages)
    requires forall id | id in order :: Key(entity, id) in rows
    requires CanonicalizeAll(env, rows, Delete, ReadBack(env, rows, entity, order), now).AllCanonical?
    ensures var recs := CanonicalizeAll(env, rows, Delete, ReadBack(env, rows, entity, order), now).records;
      && BatchFor(recs, entity, order)
      && forall i | 0 <= i < |recs| ::
           recs[i].deletedAt == Some(env.formatTime(now))
             && ToRow(env, recs[i]) == Some(Tombstone(rows[Key(entity, order[i])], now))
  {
    var docs := ReadBack(env, rows, entity, order);
    ReadBackIsBatch(env, rows, entity, order);
    CanonicalizeAllEffect(env, rows, Delete, docs, now);
    var recs := CanonicalizeAll(env, rows, Delete, docs, now).records;
    hide CanonicalizeAll, FromRow, ToRow, EntityOf, Tombstone, CanonicalOf, ValidEnv;
    forall i | 0 <= i < |recs|
      ensures KeyOf(recs[i]) == Key(entity, order[i])
      ensures recs[i].deletedAt == Some(env.formatTime(now))
      ensures ToRow(env, recs[i]) == Some(Tombstone(rows[Key(entity, order[i])], now))
    {
      assert order[i] in order;
      assert CanonicalOf(env, Delete, docs[i], recs[i], now);
      DeletedRecord(env, rows, entity, order[i], recs[i], now);
    }
  }

  lemma DeletedRecord(env: Env, rows: Rows, entity: EntityName, id: string, rec: Record, now: Time)
    requires ValidEnv(env) && Tagged(rows) && (entity == AttendanceRecords || entity == StudentMessages)
    requires Key(entity, id) in rows
    requires CanonicalOf(env, Delete, FromRow(env, id, rows[Key(entity, id)]), rec, now)
    ensures KeyOf(rec) == Key(entity, id) && rec.deletedAt == Some(env.formatTime(now))
    ensures ToRow(env, rec) == Some(Tombstone(rows[Key(entity, id)], now))
  {
    var row := rows[Key(entity, id)];
    assert EntityOf(row.body) == entity;
    TombstoneStored(env, id, row, rec, now);
    ToRowKeepsEntity(env, rec);
    hide ToRow;
  }

  /** Every record of the batch is the tombstone of the listed row. */
  ghost predicate AreTombstones(env: Env, rows: Rows, recs: seq<Record>, entity: EntityName, order: seq<string>,
                                now: Time) {
    && BatchFor(recs, entity, order)
    && forall i | 0 <= i < |recs| ::
         && Key(entity, order[i]) in rows
         && recs[i].deletedAt.Some?
         && ToRow(env, recs[i]) == Some(Tombstone(rows[Key(entity, order[i])], now))
  }

  lemma BatchTombstonesLog(env: Env, core: Core, recs: seq<Record>, entity: EntityName, order: seq<string>, now: Time)
    requires WriteAll(env, core, recs, now).Some?
    requires AreTombstones(env, core.rows, recs, entity, order, now)
    ensures TombstonedLog(env, core.log, WriteAll(env, core, recs, now).value.log, entity, order)
  {
    hide WriteAll, ToRow, EntityOf, Tombstone;
    WriteAllEffect(env, core, recs, now);
    var after := WriteAll(env, core, recs, now).value;
    forall i | |core.log| <= i < |after.log|
      ensures KeyOf(after.log[i].record) == Key(entity, order[i - |core.log|]) && after.log[i].record.deletedAt.Some?
    {
      var j := i - |core.log|;
      assert after.log[|core.log| + j] == LogRow(core.nextId + j, recs[j], now);
    }
  }

  lemma BatchTombstonesRows(env: Env, core: Core, recs: seq<Record>, entity: EntityName, order: seq<string>,
                            ids: set<string>, now: Time)
    requires WriteAll(env, core, recs, now).Some? && Lists(order, ids)
    requires AreTombstones(env, core.rows, recs, entity, order, now)
    ensures TombstonedRows(core.rows, WriteAll(env, core, recs, now).value.rows, entity, ids, now)
  {
    hide WriteAll, ToRow, EntityOf, Tombstone, HoldsRecord;
    var after := WriteAll(env, core, recs, now).value;
    BatchForEffect(env, core, recs, entity, order, ids, now);
    forall id | id in ids
      ensures Key(entity, id) in core.rows && Key(entity, id) in after.rows
        && after.rows[Key(entity, id)] == Tombstone(core.rows[Key(entity, id)], now)
    {
      assert id in order;
      ListedTombstone(env, core.rows, after.rows, recs, entity, order, id, now);
    }
    hide AreTombstones, Lists, BatchFor;
  }

  lemma ListedTombstone(env: Env, before: Rows, after: Rows, recs: seq<Record>, entity: EntityName, order: seq<string>,
                        id: string, now: Time)
    requires AreTombstones(env, before, recs, entity, order, now) && id in order
    requires forall i | 0 <= i < |recs| :: HoldsRecord(env, before, after, recs[i])
    ensures Key(entity, id) in before && Key(entity, id) in after
    ensures after[Key(entity, id)] == Tombstone(before[Key(entity, id)], now)
  {
    hide ToRow, EntityOf, Tombstone;
    var i: nat :| i < |order| && order[i] == id;
    assert HoldsRecord(env, before, after, recs[i]);
    HeldTombstone(env, before, after, recs[i], now);
  }

  lemma HeldTombstone(env: Env, before: Rows, after: Rows, rec: Record, now: Time)
    requires HoldsRecord(env, before, after, rec)
    requires KeyOf(rec) in before && ToRow(env, rec) == Some(Tombstone(before[KeyOf(rec)], now))
    ensures after[KeyOf(rec)] == Tombstone(before[KeyOf(rec)], now)
  {
    TombstoneKeepsCreation(before[KeyOf(rec)], now);
    hide ToRow, Tombstone;
  }

  lemma DeleteListedEffect(env: Env, now: Time, db: Db, entity: EntityName, ids: set<string>)
    requires ValidEnv(env) && Tagged(db.core.rows) && (entity == AttendanceRecords || entity == StudentMessages)
    requires DeleteListed(env, now, db, entity, ids).Performed?
    ensures var step := DeleteListed(env, now, db, entity, ids);
      step.db == db.(core := step.db.core) && Tombstoned(env, db.core, step.db.core, entity, ids, now)
  {
    hide WriteAll, ToRow, FromRow, CanonicalizeAll, ReadBack, Tombstone, Tagged, EntityOf, TombstonedLog,
      TombstonedRows;
    assert Lists(env.listing(ids), ids);
    var order := env.listing(ids);
    DeletedRecords(env, db.core.rows, entity, order, now);
    var recs := CanonicalizeAll(env, db.core.rows, Delete, ReadBack(env, db.core.rows, entity, order), now).records;
    assert AreTombstones(env, db.core.rows, recs, entity, order, now) by {
      forall i | 0 <= i < |recs|
        ensures Key(entity, order[i]) in db.core.rows
      {
        assert order[i] in order;
      }
    }
    BatchTombstonesLog(env, db.core, recs, entity, order, now);
    BatchTombstonesRows(env, db.core, recs, entity, order, ids, now);
  }

  lemma TombstoneKeepsCreation(row: Row, now: Time)
    ensures Tombstone(row, now).createdAt == row.createdAt
  {
  }

  lemma ReadBackIsBatch(env: Env, rows: Rows, entity: EntityName, order: seq<string>)
    requires Tagged(rows) && (entity == AttendanceRecords || entity == StudentMessages)
    requires forall id | id in order :: Key(entity, id) in rows
    ensures BatchEntity(ReadBack(env, rows, entity, order))
  {
    var docs := ReadBack(env, rows, entity, order);
    forall i | 0 <= i < |docs|
      ensures docs[i].body.Attendance? || docs[i].body.Message?
    {
      assert order[i] in order;
      assert EntityOf(rows[Key(entity, order[i])].body) == entity;
    }
  }

  /** What a deleted session leaves in the tables: its own row, all its attendance records and all live messages about
      it are tombstoned with their other columns kept, so none of them is live; every other row is as it was. */
  ghost predicate CascadedRows(before: Rows, after: Rows, sessionId: string, now: Time) {
    var key := Key(AttendanceSessions, sessionId);
    var records, messages := SessionRecordIds(before, sessionId), SessionMessageIds(before, sessionId);
    && key in before && key in after && after[key] == Tombstone(before[key], now)
    && (forall id | id in records ::
          Key(AttendanceRecords, id) in after
          && after[Key(AttendanceRecords, id)] == Tombstone(before[Key(AttendanceRecords, id)], now))
    && (forall id | id in messages ::
          Key(StudentMessages, id) in after
          && after[Key(StudentMessages, id)] == Tombstone(before[Key(StudentMessages, id)], now))
    && (forall k | k in after && k != key && k !in KeysIn(AttendanceRecords, records)
        && k !in KeysIn(StudentMessages, messages) ::
          k in before && after[k] == before[k])
    && SessionMessageIds(after, sessionId) == {}
  }

  /** And in the log: one tombstone for each row touched. */
  ghost predicate CascadedLog(env: Env, before: Core, after: Core, sessionId: string) {
    && before.log <= after.log
    && |after.log| == |before.log| + 1 + |env.listing(SessionRecordIds(before.rows, sessionId))|
                      + |env.listing(SessionMessageIds(before.rows, sessionId))|
    && (forall i | |before.log| <= i < |after.log| :: after.log[i].record.deletedAt.Some?)
  }

  ghost predicate Cascaded(env: Env, before: Core, after: Core, sessionId: string, now: Time) {
    CascadedRows(before.rows, after.rows, sessionId, now) && CascadedLog(env, before, after, sessionId)
  }

  lemma SessionTombstone(env: Env, now: Time, db: Db, a: Action, row: Row)
    requires ValidEnv(env) && LoadSession(db.core.rows, a) == Found(row) && a.sessionId != ""
    requires Save(env, db, Delete, a.sessionId, FromRow(env, a.sessionId, row), now, Some(row)).Saved?
    ensures var Saved(after, rec) := Save(env, db, Delete, a.sessionId, FromRow(env, a.sessionId, row), now, Some(row));
      var key := Key(AttendanceSessions, a.sessionId);
      && after.core.rows == db.core.rows[key := Tombstone(row, now)]
      && after.core.log == db.core.log + [LogRow(db.core.nextId, rec, now)]
      && rec.deletedAt == Some(env.formatTime(now))
      && after == db.(core := after.core)
  {
    hide LoadSession, Save, Write, Vetted, ToRow, Tombstone, ValidEnv;
    LoadedSession(db.core.rows, a);
    var doc := FromRow(env, a.sessionId, row);
    var Saved(after, rec) := Save(env, db, Delete, a.sessionId, doc, now, Some(row));
    SaveEffect(env, db, Delete, a.sessionId, doc, now, Some(row));
    WriteTouchesOne(env, db.core, rec, now);
    DeletedSessionStored(env, now, db, a.sessionId, row);
  }

  lemma DeletedSessionStored(env: Env, now: Time, db: Db, id: string, row: Row)
    requires ValidEnv(env) && row.body.Session?
    requires Save(env, db, Delete, id, FromRow(env, id, row), now, Some(row)).Saved?
    ensures var rec := Save(env, db, Delete, id, FromRow(env, id, row), now, Some(row)).record;
      ToRow(env, rec) == Some(Tombstone(row, now)) && Tombstone(row, now).createdAt == row.createdAt
  {
    FormattedNotEmpty(env, row.createdAt, 0);
    ColumnsRoundTrip(env, row.body);
    assert env.parseTime(env.formatTime(row.createdAt)) == Some(row.createdAt);
    assert env.parseTime(env.formatTime(now)) == Some(now);
    hide Write, Live;
  }

  /** A performed delete_session cascades. */
  lemma DeleteCascades(env: Env, caller: Caller, now: Time, db: Db, a: Action)
    requires ValidEnv(env) && Ready(env, db, now) && a.sessionId != ""
    requires a.body.DeleteSession? && ApplyDeleteSession(env, caller, now, db, a).Performed?
    ensures Cascaded(env, db.core, ApplyDeleteSession(env, caller, now, db, a).db.core, a.sessionId, now)
  {
    hide Save, Progress, Invariant, NotAfter, Tombstone, Cascaded, DeleteSessionRecords, FromRow, Tagged, LoadSession;
    var row := LoadSession(db.core.rows, a).row;
    var doc := FromRow(env, a.sessionId, row);
    var Saved(db1, saved) := Save(env, db, Delete, a.sessionId, doc, now, Some(row));
    SessionTombstone(env, now, db, a, row);
    SessionTombstoneReady(env, now, db, a, row);
    ReadyIsTagged(env, db, now);
    DeletedPartsCascade(env, caller, now, db.core, db1, a, row, saved);
  }

  lemma SessionTombstoneReady(env: Env, now: Time, db: Db, a: Action, row: Row)
    requires Ready(env, db, now) && LoadSession(db.core.rows, a) == Found(row) && a.sessionId != ""
    requires Save(env, db, Delete, a.sessionId, FromRow(env, a.sessionId, row), now, Some(row)).Saved?
    ensures Ready(env, Save(env, db, Delete, a.sessionId, FromRow(env, a.sessionId, row), now, Some(row)).db, now)
  {
    hide Save, Progress, Invariant, NotAfter;
    var doc := FromRow(env, a.sessionId, row);
    assert SessionInPlace(db.core.rows, Delete, a.sessionId, doc, Some(row));
    SaveProgress(env, db, Delete, a.sessionId, doc, now, Some(row));
    ProgressKeepsTags(env, db, Save(env, db, Delete, a.sessionId, doc, now, Some(row)).db, now);
  }

  lemma DeletedPartsCascade(env: Env, caller: Caller, now: Time, c0: Core, db1: Db, a: Action, row: Row, saved: Record)
    requires ValidEnv(env) && Ready(env, db1, now) && Tagged(c0.rows)
    requires LoadSession(c0.rows, a) == Found(row)
    requires db1.core.rows == c0.rows[Key(AttendanceSessions, a.sessionId) := Tombstone(row, now)]
    requires db1.core.log == c0.log + [LogRow(c0.nextId, saved, now)] && saved.deletedAt == Some(env.formatTime(now))
    requires DeleteSessionRecords(env, caller, now, db1, a, row, saved).Performed?
    ensures Cascaded(env, c0, DeleteSessionRecords(env, caller, now, db1, a, row, saved).db.core, a.sessionId, now)
  {
    hide Progress, Ready, DeleteListed, ActionAudit, Tombstone, Tombstoned, SessionRecordIds, SessionMessageIds,
      Cascaded, Tagged, ValidEnv, LoadSession;
    ReadyIsTagged(env, db1, now);
    var records := SessionRecordIds(db1.core.rows, a.sessionId);
    DeleteListedEffect(env, now, db1, AttendanceRecords, records);
    DeleteListedProgress(env, now, db1, AttendanceRecords, records);
    var db2 := DeleteListed(env, now, db1, AttendanceRecords, records).db;
    ProgressKeepsReady(env, db1, db2, now);
    ReadyIsTagged(env, db2, now);
    var messages := SessionMessageIds(db2.core.rows, a.sessionId);
    DeleteListedEffect(env, now, db2, StudentMessages, messages);
    var db3 := DeleteListed(env, now, db2, StudentMessages, messages).db;
    LoadedSession(c0.rows, a);
    CascadeParts(env, now, c0, db1.core, db2.core, db3.core, a.sessionId, saved);
  }

  lemma LoadedSession(rows: Rows, a: Action)
    requires LoadSession(rows, a).Found?
    ensures Key(AttendanceSessions, a.sessionId) in rows
    ensures rows[Key(AttendanceSessions, a.sessionId)] == LoadSession(rows, a).row
    ensures LoadSession(rows, a).row.body.Session? && LoadSession(rows, a).row.body.clubId == a.clubId
  {
  }

  lemma ReadyIsTagged(env: Env, db: Db, now: Time)
    requires Ready(env, db, now)
    ensures Tagged(db.core.rows)
  {
  }

  /** The three parts of a cascade put together. */
  lemma CascadeParts(env: Env, now: Time, c0: Core, c1: Core, c2: Core, c3: Core, sessionId: string, saved: Record)
    requires Key(AttendanceSessions, sessionId) in c0.rows
    requires c1.rows
      == c0.rows[Key(AttendanceSessions, sessionId) := Tombstone(c0.rows[Key(AttendanceSessions, sessionId)], now)]
    requires c1.log == c0.log + [LogRow(c0.nextId, saved, now)] && saved.deletedAt == Some(env.formatTime(now))
    requires Tombstoned(env, c1, c2, AttendanceRecords, SessionRecordIds(c1.rows, sessionId), now)
    requires Tombstoned(env, c2, c3, StudentMessages, SessionMessageIds(c2.rows, sessionId), now)
    ensures Cascaded(env, c0, c3, sessionId, now)
  {
    hide Tombstone, Tombstoned, SessionRecordIds, SessionMessageIds, CascadedRows, CascadedLog;
    SameIds(env, now, c0, c1, c2, sessionId);
    TombstonesAreNotLive(env, c2, c3, sessionId, now);
    CascadeRows(env, now, c0.rows, c1, c2, c3, sessionId);
    CascadeLog(env, now, c0, c1, c2, c3, sessionId, saved);
  }

  lemma CascadeRows(env: Env, now: Time, rows: Rows, c1: Core, c2: Core, c3: Core, sessionId: string)
    requires Key(AttendanceSessions, sessionId) in rows
    requires c1.rows
      == rows[Key(AttendanceSessions, sessionId) := Tombstone(rows[Key(AttendanceSessions, sessionId)], now)]
    requires Tombstoned(env, c1, c2, AttendanceRecords, SessionRecordIds(rows, sessionId), now)
    requires Tombstoned(env, c2, c3, StudentMessages, SessionMessageIds(rows, sessionId), now)
    requires SessionMessageIds(c3.rows, sessionId) == {}
    ensures CascadedRows(rows, c3.rows, sessionId, now)
  {
    hide Tombstone, SessionRecordIds, SessionMessageIds;
    var key := Key(AttendanceSessions, sessionId);
    var records, messages := SessionRecordIds(rows, sessionId), SessionMessageIds(rows, sessionId);
    forall id | id in records
      ensures Key(AttendanceRecords, id) in c3.rows
      ensures c3.rows[Key(AttendanceRecords, id)] == Tombstone(rows[Key(AttendanceRecords, id)], now)
    {
      assert Key(AttendanceRecords, id) !in KeysIn(StudentMessages, messages);
    }
    forall id | id in messages
      ensures Key(StudentMessages, id) in c3.rows
      ensures c3.rows[Key(StudentMessages, id)] == Tombstone(rows[Key(StudentMessages, id)], now)
    {
      assert Key(StudentMessages, id) !in KeysIn(AttendanceRecords, records);
    }
    assert key !in KeysIn(AttendanceRecords, records) && key !in KeysIn(StudentMessages, messages);
  }

  lemma CascadeLog(env: Env, now: Time, c0: Core, c1: Core, c2: Core, c3: Core, sessionId: string, saved: Record)
    requires c1.log == c0.log + [LogRow(c0.nextId, saved, now)] && saved.deletedAt == Some(env.formatTime(now))
    requires Tombstoned(env, c1, c2, AttendanceRecords, SessionRecordIds(c0.rows, sessionId), now)
    requires Tombstoned(env, c2, c3, StudentMessages, SessionMessageIds(c0.rows, sessionId), now)
    ensures CascadedLog(env, c0, c3, sessionId)
  {
    hide Tombstone, SessionRecordIds, SessionMessageIds;
    forall i | |c0.log| <= i < |c3.log|
      ensures c3.log[i].record.deletedAt.Some?
    {
      assert i == |c0.log| ==> c1.log[i].record == saved;
      assert i < |c2.log| ==> c3.log[i] == c2.log[i];
      assert i < |c1.log| ==> c2.log[i] == c1.log[i];
    }
  }

  /** The session's records and messages are the same before and after the earlier parts. */
  lemma SameIds(env: Env, now: Time, c0: Core, c1: Core, c2: Core, sessionId: string)
    requires c1.rows.Keys == c0.rows.Keys + {Key(AttendanceSessions, sessionId)}
    requires forall k | k in c0.rows && k != Key(AttendanceSessions, sessionId) :: c1.rows[k] == c0.rows[k]
    requires Tombstoned(env, c1, c2, AttendanceRecords, SessionRecordIds(c1.rows, sessionId), now)
    ensures SessionRecordIds(c1.rows, sessionId) == SessionRecordIds(c0.rows, sessionId)
    ensures SessionMessageIds(c2.rows, sessionId) == SessionMessageIds(c0.rows, sessionId)
  {
    hide Tombstoned, SessionRecordIds, SessionMessageIds;
    SameRecordIds(c0.rows, c1.rows, sessionId);
    forall k: Key | k.entity == StudentMessages
      ensures (k in c2.rows <==> k in c0.rows) && (k in c0.rows ==> c2.rows[k] == c0.rows[k])
    {
      MessagesUntouched(env, now, c1, c2, SessionRecordIds(c1.rows, sessionId), k);
    }
    SameMessageIds(c0.rows, c2.rows, sessionId);
  }

  lemma MessagesUntouched(env: Env, now: Time, c1: Core, c2: Core, records: set<string>, k: Key)
    requires Tombstoned(env, c1, c2, AttendanceRecords, records, now) && k.entity == StudentMessages
    ensures (k in c2.rows <==> k in c1.rows) && (k in c1.rows ==> c2.rows[k] == c1.rows[k])
  {
    hide Tombstone;
    assert k !in KeysIn(AttendanceRecords, records);
  }

  lemma SameRecordIds(before: Rows, after: Rows, sessionId: string)
    requires forall k: Key | k.entity == AttendanceRecords ::
      (k in after <==> k in before) && (k in before ==> after[k] == before[k])
    ensures SessionRecordIds(after, sessionId) == SessionRecordIds(before, sessionId)
  {
  }

  lemma SameMessageIds(before: Rows, after: Rows, sessionId: string)
    requires forall k: Key | k.entity == StudentMessages ::
      (k in after <==> k in before) && (k in before ==> after[k] == before[k])
    ensures SessionMessageIds(after, sessionId) == SessionMessageIds(before, sessionId)
  {
  }

  lemma TombstonesAreNotLive(env: Env, before: Core, after: Core, sessionId: string, now: Time)
    requires Tombstoned(env, before, after, StudentMessages, SessionMessageIds(before.rows, sessionId), now)
    ensures SessionMessageIds(after.rows, sessionId) == {}
  {
    var messages := SessionMessageIds(before.rows, sessionId);
    hide Tombstone;
    forall k | k in after.rows && k.entity == StudentMessages
      ensures after.rows[k].deletedAt.Some?
        || (k in before.rows && after.rows[k] == before.rows[k] && k.id !in messages)
    {
      if k.id in messages {
        assert Key(StudentMessages, k.id) == k;
        TombstoneIsDeleted(before.rows[k], now);
      } else {
        assert k !in KeysIn(StudentMessages, messages);
      }
    }
  }

  lemma TombstoneIsDeleted(row: Row, now: Time)
    ensures Tombstone(row, now).deletedAt == Some(now)
  {
  }

  // ----- single-row actions --------------------------------------------------------

  /** One row of a table is replaced, with one log row; nothing else of the tables and the log changes. */
  ghost predicate OneRowChanged(before: Core, after: Core, key: Key, row: Row) {
    after.rows == before.rows[key := row] && before.log <= after.log && |after.log| == |before.log| + 1
      && KeyOf(after.log[|before.log|].record) == key
  }

  /** A rendered row with some fields replaced is stored with exactly those fields replaced, and the server's time. */
  lemma EditedRowStored(env: Env, db: Db, doc: Record, now: Time, row: Row, body: Columns)
    requires ValidEnv(env) && KeyOf(doc) in db.core.rows && db.core.rows[KeyOf(doc)] == row
    requires doc.id != "" && (doc.body.Attendance? || doc.body.Session?)
    requires doc.createdAt == env.formatTime(row.createdAt)
    requires doc.deletedAt == FormatOptional(env.formatTime, row.deletedAt)
    requires ToColumns(env, doc.body) == Some(body)
    requires Save(env, db, Upsert, doc.id, doc, now, Some(row)).Saved?
    ensures OneRowChanged(db.core, Save(env, db, Upsert, doc.id, doc, now, Some(row)).db.core, KeyOf(doc),
                          Row(row.createdAt, now, now, row.deletedAt, body))
  {
    var Saved(after, rec) := Save(env, db, Upsert, doc.id, doc, now, Some(row));
    SaveEffect(env, db, Upsert, doc.id, doc, now, Some(row));
    SaveStamps(env, db, doc, now, row);
    WriteTouchesOne(env, db.core, rec, now);
    FormattedNotEmpty(env, row.createdAt, 0);
    assert env.parseTime(env.formatTime(row.createdAt)) == Some(row.createdAt);
    assert env.parseTime(env.formatTime(now)) == Some(now);
    if row.deletedAt.Some? {
      assert env.parseTime(env.formatTime(row.deletedAt.value)) == Some(row.deletedAt.value);
    }
    hide Save, Write, Vetted, ToColumns, ValidEnv, EntityOf;
  }

  lemma SaveStamps(env: Env, db: Db, doc: Record, now: Time, row: Row)
    requires Save(env, db, Upsert, doc.id, doc, now, Some(row)).Saved? && doc.createdAt != ""
    ensures var rec := Save(env, db, Upsert, doc.id, doc, now, Some(row)).record;
      rec.createdAt == doc.createdAt && rec.updatedAt == rec.lastModifiedAt == env.formatTime(now)
  {
    hide Write, Vet;
  }

  /** set_record_status, when performed, changes the status and check-in of the addressed record and nothing else; the
      record stays deleted if it was. */
  lemma StatusSet(env: Env, caller: Caller, now: Time, db: Db, a: Action)
    requires ValidEnv(env) && Tagged(db.core.rows) && a.body.SetRecordStatus?
    requires ApplySetRecordStatus(env, caller, now, db, a).Performed?
    ensures a.recordId.Some? && a.body.mark.Some? && Key(AttendanceRecords, a.recordId.value) in db.core.rows
    ensures var key := Key(AttendanceRecords, a.recordId.value);
      var row := db.core.rows[key];
      var (status, checkInAt) := a.body.mark.value;
      var after := ApplySetRecordStatus(env, caller, now, db, a).db;
      && row.body.Attendance? && row.body.sessionId == a.sessionId && Some(row.body.studentId) == a.studentId
      && ParseOptional(env.parseTime, checkInAt).Some?
      && OneRowChanged(db.core, after.core, key,
           Row(row.createdAt, now, now, row.deletedAt,
               Attendance(row.body.sessionId, row.body.studentId, status, ParseOptional(env.parseTime, checkInAt).value,
                          row.body.notes)))
      && after.processed == db.processed && |after.audit| == |db.audit| + 1
  {
    hide OneRowChanged, ActionAudit;
    var key := Key(AttendanceRecords, a.recordId.value);
    var row := db.core.rows[key];
    var (status, checkInAt) := a.body.mark.value;
    var doc := FromRow(env, a.recordId.value, row);
    var edited := doc.(body := MarkFields(doc.body, status, checkInAt));
    assert row.body.Attendance? && LoadRecord(db.core.rows, a) == Found(row);
    assert edited.body == Attendance(row.body.sessionId, row.body.studentId, status, checkInAt, row.body.notes);
    var saving := Save(env, db, Upsert, edited.id, edited, now, Some(row));
    hide LoadRecord, FromRow, MarkFields;
    SavedNeedsColumns(env, db, edited, now, row);
    hide Save;
    EditedRowStored(env, db, edited, now, row, ToColumns(env, edited.body).value);
    SaveEffect(env, db, Upsert, edited.id, edited, now, Some(row));
    hide Vetted, Write;
  }

  lemma SavedNeedsColumns(env: Env, db: Db, doc: Record, now: Time, row: Row)
    requires Save(env, db, Upsert, doc.id, doc, now, Some(row)).Saved? && !doc.body.Student? && !doc.body.Message?
    ensures ToColumns(env, doc.body).Some?
  {
    AcceptKeepsFields(env, db.core.rows, db.counter, Upsert, doc.id, doc.body, now, Some(row));
    hide Vet, ToColumns, ForeignKeysHold, FitsIndexes;
  }

  /** set_session_note and set_session_status, when performed, change that one field of the session and nothing else. */
  lemma SessionSet(env: Env, caller: Caller, now: Time, db: Db, a: Action)
    requires ValidEnv(env) && Tagged(db.core.rows) && a.sessionId != ""
    requires (a.body.SetSessionNote? || a.body.SetSessionStatus?)
    requires ApplySetSession(env, caller, now, db, a).Performed?
    ensures var key := Key(AttendanceSessions, a.sessionId);
      var after := ApplySetSession(env, caller, now, db, a).db;
      && key in db.core.rows && db.core.rows[key].body.Session? && db.core.rows[key].body.clubId == a.clubId
      && (var row := db.core.rows[key];
          var status :=
            if a.body.SetSessionStatus? && a.body.newStatus.Some? then a.body.newStatus.value else row.body.status;
          var notes := if a.body.SetSessionNote? && a.body.note.Some? then a.body.note.value else row.body.notes;
          && (a.body.SetSessionNote? ==> a.body.note.Some?) && (a.body.SetSessionStatus? ==> a.body.newStatus.Some?)
          && OneRowChanged(db.core, after.core, key,
               Row(row.createdAt, now, now, row.deletedAt,
                   Session(row.body.clubId, row.body.sessionDate, status, notes))))
      && after.processed == db.processed && |after.audit| == |db.audit| + 1
  {
    hide Save, ActionAudit, OneRowChanged, LoadSession;
    LoadedSession(db.core.rows, a);
    var key := Key(AttendanceSessions, a.sessionId);
    var row := db.core.rows[key];
    var doc := FromRow(env, a.sessionId, row);
    var status := if a.body.SetSessionStatus? then a.body.newStatus.value else row.body.status;
    var notes := if a.body.SetSessionNote? then a.body.note.value else row.body.notes;
    var edited := doc.(body := SessionFields(doc.body, status, notes));
    assert edited.body == Session(row.body.clubId, env.formatDate(row.body.sessionDate), status, notes);
    assert env.parseDate(env.formatDate(row.body.sessionDate)) == Some(row.body.sessionDate);
    var saving := Save(env, db, Upsert, edited.id, edited, now, Some(row));
    hide FromRow, SessionFields;
    EditedRowStored(env, db, edited, now, row, Session(row.body.clubId, row.body.sessionDate, status, notes));
    SaveEffect(env, db, Upsert, edited.id, edited, now, Some(row));
    hide Vetted, Write;
  }

  // ----- bulk marking -------------------------------------------------------------

  lemma {:induction false} KeepMembers(order: seq<string>, wanted: set<string>)
    ensures forall x :: x in Keep(order, wanted) <==> x in order && x in wanted
  {
    if order != [] {
      var n := |order| - 1;
      KeepMembers(order[..n], wanted);
      assert order == order[..n] + [order[n]];
    }
  }

  lemma {:induction false} KeepDistinct(order: seq<string>, wanted: set<string>)
    requires forall i, j | 0 <= i < j < |order| :: order[i] != order[j]
    ensures forall i, j | 0 <= i < j < |Keep(order, wanted)| :: Keep(order, wanted)[i] != Keep(order, wanted)[j]
  {
    if order != [] {
      var n := |order| - 1;
      KeepDistinct(order[..n], wanted);
      KeepMembers(order[..n], wanted);
      assert order[n] !in order[..n];
      var front := Keep(order[..n], wanted);
      forall i | 0 <= i < |front|
        ensures front[i] != order[n]
      {
        assert front[i] in front;
      }
    }
  }

  /** The payloads of ids that are all stored: one each, in order. */
  lemma {:induction false} PresentDocsListed(env: Env, rows: Rows, ids: seq<string>, checkInAt: Option<string>)
    requires Tagged(rows) && forall id | id in ids :: Key(AttendanceRecords, id) in rows
    ensures var docs := PresentDocs(env, rows, ids, checkInAt);
      |docs| == |ids| && forall i | 0 <= i < |ids| :: docs[i] == PresentDoc(env, rows, ids[i], checkInAt)
  {
    if ids != [] {
      var n := |ids| - 1;
      assert ids[n] in ids;
      PresentDocsListed(env, rows, ids[..n], checkInAt);
      PresentDocsLast(env, rows, ids, checkInAt);
      hide PresentDocs, PresentDoc;
    }
  }

  /** A record marked present at `now`: nothing but status, check-in and the modification times changes. */
  function MarkedPresent(row: Row, checkIn: Option<Time>, now: Time): Row
    requires row.body.Attendance?
  {
    Row(row.createdAt, now, now, row.deletedAt,
        Attendance(row.body.sessionId, row.body.studentId, "present", checkIn, row.body.notes))
  }

  lemma MarkedPresentStored(env: Env, rows: Rows, id: string, checkInAt: Option<string>, rec: Record, now: Time)
    requires ValidEnv(env) && Key(AttendanceRecords, id) in rows && rows[Key(AttendanceRecords, id)].body.Attendance?
    requires CanonicalOf(env, Upsert, PresentDoc(env, rows, id, checkInAt), rec, now)
    ensures var checkIn := ParseOptional(env.parseTime, checkInAt);
      ToRow(env, rec) == if checkIn.None? then None
        else Some(MarkedPresent(rows[Key(AttendanceRecords, id)], checkIn.value, now))
  {
    var row := rows[Key(AttendanceRecords, id)];
    FormattedNotEmpty(env, row.createdAt, 0);
    assert env.parseTime(env.formatTime(row.createdAt)) == Some(row.createdAt);
    assert env.parseTime(env.formatTime(now)) == Some(now);
    if row.deletedAt.Some? {
      assert env.parseTime(env.formatTime(row.deletedAt.value)) == Some(row.deletedAt.value);
    }
  }

  /** What mark_all_present leaves when it is performed for some ids. */
  ghost predicate AllMarked(env: Env, before: Core, after: Core, ids: seq<string>, sessionId: string,
                            checkInAt: Option<string>, now: Time) {
    var wanted := set id | id in ids;
    && wanted <= SessionRecordIds(before.rows, sessionId)
    && (forall k | k in after.rows && k !in KeysIn(AttendanceRecords, wanted) ::
        k in before.rows && after.rows[k] == before.rows[k])
    && ParseOptional(env.parseTime, checkInAt).Some?
    && (forall id | id in wanted ::
          var key := Key(AttendanceRecords, id);
          && key in before.rows && key in after.rows && before.rows[key].body.Attendance?
          && after.rows[key] == MarkedPresent(before.rows[key], ParseOptional(env.parseTime, checkInAt).value, now))
  }

  lemma MarkAllMarks(env: Env, now: Time, db: Db, a: Action)
    requires ValidEnv(env) && Tagged(db.core.rows) && a.body.MarkAllPresent?
    requires ApplyMarkAllPresent(env, now, db, a).Performed? && a.body.targets.value.0 != []
    ensures AllMarked(env, db.core, ApplyMarkAllPresent(env, now, db, a).db.core, a.body.targets.value.0, a.sessionId,
                      a.body.targets.value.1, now)
  {
    hide ApplyMarkAllPresent, Keep, PresentDocs, CanonicalizeAll, WriteAll, ValidEnv, SessionRecordIds, AllMarked,
      Tagged, FromRow;
    MarkAllWrites(env, now, db, a);
    var rows := db.core.rows;
    var (ids, checkInAt) := a.body.targets.value;
    var wanted := set id | id in ids;
    var inSession := SessionRecordIds(rows, a.sessionId);
    var kept := Keep(env.listing(inSession), wanted);
    KeptIsWanted(env, inSession, wanted);
    var docs := PresentDocs(env, rows, kept, checkInAt);
    var recs := CanonicalizeAll(env, rows, Upsert, docs, now).records;
    assert ids[0] in wanted;
    SessionRecords(rows, a.sessionId);
    PresentDocsListed(env, rows, kept, checkInAt);
    PresentDocsAreAttendance(env, rows, kept, checkInAt);
    CanonicalizeAllEffect(env, rows, Upsert, docs, now);
    MarkedBatch(env, db.core, recs, docs, kept, wanted, checkInAt, now);
    AllMarkedBy(env, db.core, ApplyMarkAllPresent(env, now, db, a).db.core, ids, a.sessionId, checkInAt, now);
  }

  /** What a performed mark_all_present has written. */
  lemma MarkAllWrites(env: Env, now: Time, db: Db, a: Action)
    requires a.body.MarkAllPresent? && ApplyMarkAllPresent(env, now, db, a).Performed? && a.body.targets.value.0 != []
    ensures a.body.targets.Some?
    ensures var (ids, checkInAt) := a.body.targets.value;
      var wanted := set id | id in ids;
      var inSession := SessionRecordIds(db.core.rows, a.sessionId);
      var docs := PresentDocs(env, db.core.rows, Keep(env.listing(inSession), wanted), checkInAt);
      var all := CanonicalizeAll(env, db.core.rows, Upsert, docs, now);
      && wanted <= inSession && all.AllCanonical?
      && WriteAll(env, db.core, all.records, now) == Some(ApplyMarkAllPresent(env, now, db, a).db.core)
  {
    hide Keep, PresentDocs, CanonicalizeAll, WriteAll, SessionRecordIds;
  }

  lemma KeptIsWanted(env: Env, inSession: set<string>, wanted: set<string>)
    requires ValidEnv(env) && wanted <= inSession
    ensures Lists(Keep(env.listing(inSession), wanted), wanted)
  {
    ListingLists(env, inSession);
    KeepMembers(env.listing(inSession), wanted);
    KeepDistinct(env.listing(inSession), wanted);
  }

  lemma SessionRecords(rows: Rows, sessionId: string)
    ensures forall id | id in SessionRecordIds(rows, sessionId) ::
      Key(AttendanceRecords, id) in rows && rows[Key(AttendanceRecords, id)].body.Attendance?
  {
  }

  lemma AllMarkedBy(env: Env, before: Core, after: Core, ids: seq<string>, sessionId: string, checkInAt: Option<string>,
                    now: Time)
    requires var wanted := set id | id in ids;
      && wanted <= SessionRecordIds(before.rows, sessionId)
      && (forall k | k in after.rows && k !in KeysIn(AttendanceRecords, wanted) ::
          k in before.rows && after.rows[k] == before.rows[k])
      && ParseOptional(env.parseTime, checkInAt).Some?
      && (forall id | id in wanted ::
            var key := Key(AttendanceRecords, id);
            && key in before.rows && key in after.rows && before.rows[key].body.Attendance?
            && after.rows[key] == MarkedPresent(before.rows[key], ParseOptional(env.parseTime, checkInAt).value, now))
    ensures AllMarked(env, before, after, ids, sessionId, checkInAt, now)
  {
    hide ParseOptional, SessionRecordIds;
  }

  lemma MarkedBatch(env: Env, core: Core, recs: seq<Record>, docs: seq<Record>, order: seq<string>, wanted: set<string>,
                    checkInAt: Option<string>, now: Time)
    requires ValidEnv(env) && WriteAll(env, core, recs, now).Some?
    requires Lists(order, wanted) && wanted != {} && |recs| == |docs| == |order|
    requires forall id | id in order ::
      Key(AttendanceRecords, id) in core.rows && core.rows[Key(AttendanceRecords, id)].body.Attendance?
    requires forall i | 0 <= i < |order| :: docs[i] == PresentDoc(env, core.rows, order[i], checkInAt)
    requires forall i | 0 <= i < |order| :: CanonicalOf(env, Upsert, docs[i], recs[i], now)
    ensures var after := WriteAll(env, core, recs, now).value;
      && (forall k | k in after.rows && k !in KeysIn(AttendanceRecords, wanted) ::
          k in core.rows && after.rows[k] == core.rows[k])
      && ParseOptional(env.parseTime, checkInAt).Some?
      && (forall id | id in wanted ::
            var key := Key(AttendanceRecords, id);
            && key in core.rows && key in after.rows && core.rows[key].body.Attendance?
            && after.rows[key] == MarkedPresent(core.rows[key], ParseOptional(env.parseTime, checkInAt).value, now))
  {
    hide WriteAll, ValidEnv, ToRow, ParseOptional, HoldsRecord;
    var after := WriteAll(env, core, recs, now).value;
    forall i | 0 <= i < |recs|
      ensures KeyOf(recs[i]) == Key(AttendanceRecords, order[i])
      ensures var checkIn := ParseOptional(env.parseTime, checkInAt);
        ToRow(env, recs[i]) == if checkIn.None? then None
                               else Some(MarkedPresent(core.rows[Key(AttendanceRecords, order[i])], checkIn.value, now))
    {
      assert order[i] in order;
      assert CanonicalOf(env, Upsert, docs[i], recs[i], now);
      MarkedPresentStored(env, core.rows, order[i], checkInAt, recs[i], now);
    }
    BatchForEffect(env, core, recs, AttendanceRecords, order, wanted, now);
    forall id | id in wanted
      ensures ParseOptional(env.parseTime, checkInAt).Some?
      ensures var key := Key(AttendanceRecords, id);
        && key in core.rows && key in after.rows && core.rows[key].body.Attendance?
        && after.rows[key] == MarkedPresent(core.rows[key], ParseOptional(env.parseTime, checkInAt).value, now)
    {
      assert id in order;
      var i: nat :| i < |order| && order[i] == id;
      HeldMark(env, core.rows, after.rows, recs[i], checkInAt, now);
    }
    var some :| some in wanted;
  }

  lemma HeldMark(env: Env, before: Rows, after: Rows, rec: Record, checkInAt: Option<string>, now: Time)
    requires HoldsRecord(env, before, after, rec)
    requires KeyOf(rec) in before && before[KeyOf(rec)].body.Attendance?
    requires var checkIn := ParseOptional(env.parseTime, checkInAt);
      ToRow(env, rec) == if checkIn.None? then None else Some(MarkedPresent(before[KeyOf(rec)], checkIn.value, now))
    ensures ParseOptional(env.parseTime, checkInAt).Some?
    ensures after[KeyOf(rec)] == MarkedPresent(before[KeyOf(rec)], ParseOptional(env.parseTime, checkInAt).value, now)
  {
    hide ToRow, ParseOptional;
  }
}
