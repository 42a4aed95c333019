/** What every run of the server keeps: the change log replays to the tables,
    references and indexes hold, and every log row can be assigned to a club. */
module History {
  import opened Records
  import opened Tables
  import opened Lookups

  // ----- runs ---------------------------------------------------------------

  /** The reopen rule for one write: a session stored as completed keeps that status,
      unless the write happens on the session's own UTC date. */
  ghost predicate FollowsReopenRule(env: Env, rows: Rows, rec: Record, now: Time) {
    rec.body.Session? && KeyOf(rec) in rows && rows[KeyOf(rec)].body.Session?
      && rows[KeyOf(rec)].body.status == "completed" ==>
      rec.body.status == "completed" || env.formatDate(rows[KeyOf(rec)].body.sessionDate) == env.formatDate(DateOf(now))
  }

  /** What the service checks before a write beyond what the database checks: ids are not empty, a live group has a
      name of its own in its club, and, in an orderly write, the reopen rule. */
  ghost predicate Vetted(env: Env, rows: Rows, rec: Record, now: Time, orderly: bool) {
    && (rec.body.Club? || rec.body.Student? || rec.body.Session? ==> rec.id != "")
    && (rec.body.ClubGroup? && rec.deletedAt.None? ==>
          !GroupNameTaken(env, rows, rec.body.clubId, rec.body.name, rec.id))
    && (orderly ==> FollowsReopenRule(env, rows, rec, now))
  }

  /** All records of a batch go through, each vetted against the rows it meets. */
  ghost predicate VettedAll(env: Env, core: Core, recs: seq<Record>, now: Time, orderly: bool) {
    WriteAll(env, core, recs, now).Some? && forall i | 0 <= i < |recs| :: VettedAt(env, core, recs, now, orderly, i)
  }

  ghost predicate VettedAt(env: Env, core: Core, recs: seq<Record>, now: Time, orderly: bool, i: nat)
    requires i < |recs|
  {
    && WriteAll(env, core, recs[..i], now).Some?
    && Vetted(env, WriteAll(env, core, recs[..i], now).value.rows, recs[i], now, orderly)
  }

  /** One serial transaction at server time `now`: some number of vetted writes. */
  ghost predicate Evolves(env: Env, before: Core, after: Core, now: Time, orderly: bool) {
    exists recs: seq<Record> ::
      VettedAll(env, before, recs, now, orderly) && WriteAll(env, before, recs, now) == Some(after)
  }

  lemma EvolvesNothing(env: Env, core: Core, now: Time, orderly: bool)
    ensures Evolves(env, core, core, now, orderly)
  {
    assert VettedAll(env, core, [], now, orderly);
  }

  lemma EvolvesBatch(env: Env, core: Core, recs: seq<Record>, now: Time, orderly: bool)
    requires VettedAll(env, core, recs, now, orderly)
    ensures Evolves(env, core, WriteAll(env, core, recs, now).value, now, orderly)
  {
  }

  lemma EvolvesWrite(env: Env, core: Core, rec: Record, now: Time, orderly: bool)
    requires Vetted(env, core.rows, rec, now, orderly) && Write(env, core, rec, now).Some?
    ensures Evolves(env, core, Write(env, core, rec, now).value, now, orderly)
  {
    hide ToRow, ForeignKeysHold, FitsIndexes, EntityOf, Vetted;
    assert [rec][..0] == [];
    assert WriteAll(env, core, [rec], now) == Write(env, core, rec, now);
    assert VettedAt(env, core, [rec], now, orderly, 0);
    EvolvesBatch(env, core, [rec], now, orderly);
  }

  lemma EvolvesTogether(env: Env, a: Core, b: Core, c: Core, now: Time, orderly: bool)
    requires Evolves(env, a, b, now, orderly) && Evolves(env, b, c, now, orderly)
    ensures Evolves(env, a, c, now, orderly)
  {
    hide Write, Vetted;
    var xs :| VettedAll(env, a, xs, now, orderly) && WriteAll(env, a, xs, now) == Some(b);
    var ys :| VettedAll(env, b, ys, now, orderly) && WriteAll(env, b, ys, now) == Some(c);
    WriteAllAppend(env, a, xs, ys, now);
    forall i | 0 <= i < |xs + ys|
      ensures VettedAt(env, a, xs + ys, now, orderly, i)
    {
      if i < |xs| {
        assert (xs + ys)[..i] == xs[..i];
        assert VettedAt(env, a, xs, now, orderly, i);
      } else {
        var j := i - |xs|;
        assert VettedAt(env, b, ys, now, orderly, j);
        assert (xs + ys)[..i] == xs + ys[..j];
        WriteAllAppend(env, a, xs, ys[..j], now);
      }
    }
    assert VettedAll(env, a, xs + ys, now, orderly);
  }

  // ----- replay -------------------------------------------------------------

  /** Storing a logged payload again. */
  function Restore(env: Env, rows: Rows, rec: Record): Rows {
    match ToRow(env, rec)
    case None => rows
    case Some(row) => Put(rows, KeyOf(rec), row)
  }

  /** The tables a log rebuilds. */
  function Replay(env: Env, log: seq<LogRow>): Rows {
    if log == [] then map[]
    else Restore(env, Replay(env, log[..|log| - 1]), log[|log| - 1].record)
  }

  /** What a client holds after applying log rows one by one:
      the last payload of every id, without the deleted ones. */
  function ClientFold(log: seq<LogRow>): map<Key, Record> {
    if log == [] then map[]
    else
      var known := ClientFold(log[..|log| - 1]);
      var rec := log[|log| - 1].record;
      if rec.deletedAt.Some? then known - {KeyOf(rec)} else known[KeyOf(rec) := rec]
  }

  // ----- invariants ---------------------------------------------------------

  /** Cursor order, (server_modified_at, change_id), is insertion order. */
  ghost predicate LogOrdered(core: Core) {
    && (forall i, j | 0 <= i < j < |core.log| ::
          core.log[i].at <= core.log[j].at && core.log[i].changeId < core.log[j].changeId)
    && 1 <= core.nextId
    && (forall i | 0 <= i < |core.log| :: 1 <= core.log[i].changeId < core.nextId)
  }

  /** Every logged payload could be stored. */
  ghost predicate AllStored(env: Env, log: seq<LogRow>) {
    forall i | 0 <= i < |log| :: ToRow(env, log[i].record).Some?
  }

  ghost predicate Tagged(rows: Rows) {
    forall k | k in rows :: EntityOf(rows[k].body) == k.entity
  }

  ghost predicate Indexed(rows: Rows) {
    forall k, l | k in rows && l in rows && k != l && k.entity == l.entity :: !Collides(rows[k], rows[l])
  }

  ghost predicate Referenced(env: Env, core: Core) {
    && (forall k | k in core.rows :: ForeignKeysHold(env.users, core.rows, core.rows[k].body))
    && (forall i | 0 <= i < |core.log| :: ForeignKeysHold(env.users, core.rows, core.log[i].record.body))
  }

  ghost predicate Named(rows: Rows) {
    forall k | k in rows :: k.entity == Clubs || k.entity == Students || k.entity == AttendanceSessions ==> k.id != ""
  }

  /** Two live groups of one club whose names a reader would not tell apart. */
  ghost predicate SameGroup(env: Env, a: Row, b: Row) {
    && a.deletedAt.None? && b.deletedAt.None? && a.body.ClubGroup? && b.body.ClubGroup?
    && a.body.clubId == b.body.clubId && env.normalize(a.body.name) == env.normalize(b.body.name)
  }

  ghost predicate GroupsDistinct(env: Env, rows: Rows) {
    forall k, l | k in rows && l in rows && k != l :: !SameGroup(env, rows[k], rows[l])
  }

  ghost predicate Invariant(env: Env, core: Core) {
    && LogOrdered(core)
    && AllStored(env, core.log)
    && core.rows == Replay(env, core.log)
    && Tagged(core.rows)
    && Indexed(core.rows)
    && Referenced(env, core)
    && Named(core.rows)
    && GroupsDistinct(env, core.rows)
  }

  /** Everything in the log happened at or before `now`. */
  ghost predicate NotAfter(core: Core, now: Time) {
    forall i | 0 <= i < |core.log| :: core.log[i].at <= now
  }

  /** References survive a write: rows are never removed. */
  lemma ReferencesSurvive<D, T>(users: set<string>, rows: Rows, more: Rows, body: Body<D, T>)
    requires rows.Keys <= more.Keys
    requires ForeignKeysHold(users, rows, body)
    ensures ForeignKeysHold(users, more, body)
  {
  }

  /** A payload and the row it is stored as have the same references. */
  lemma SameReferences(env: Env, rows: Rows, rec: Record)
    requires ToRow(env, rec).Some?
    ensures ForeignKeysHold(env.users, rows, ToRow(env, rec).value.body) <==> ForeignKeysHold(env.users, rows, rec.body)
  {
  }

  lemma CollidesSymmetric(a: Row, b: Row)
    ensures Collides(a, b) == Collides(b, a)
  {
  }

  lemma CreatedAtIrrelevant(a: Row, b: Row, t: Time)
    ensures Collides(a.(createdAt := t), b) == Collides(a, b)
  {
  }

  lemma WriteKeepsIndexed(rows: Rows, key: Key, row: Row)
    requires Indexed(rows) && FitsIndexes(rows, key, row)
    ensures Indexed(Put(rows, key, row))
  {
    hide Collides;
    var after := Put(rows, key, row);
    forall k, l | k in after && l in after && k != l && k.entity == l.entity
      ensures !Collides(after[k], after[l])
    {
      CollidesSymmetric(after[k], after[l]);
      if k == key || l == key {
        var other := if k == key then l else k;
        CreatedAtIrrelevant(row, rows[other], after[key].createdAt);
      }
    }
  }

  lemma WriteKeepsReferenced(env: Env, core: Core, rec: Record, now: Time)
    requires Referenced(env, core) && Write(env, core, rec, now).Some?
    ensures Referenced(env, Write(env, core, rec, now).value)
  {
    hide ToRow, FitsIndexes, ForeignKeysHold, EntityOf;
    var after := Write(env, core, rec, now).value;
    var row := ToRow(env, rec).value;
    SameReferences(env, core.rows, rec);
    forall k | k in after.rows
      ensures ForeignKeysHold(env.users, after.rows, after.rows[k].body)
    {
      assert k == KeyOf(rec) ==> after.rows[k].body == row.body;
      ReferencesSurvive(env.users, core.rows, after.rows, after.rows[k].body);
    }
    forall i | 0 <= i < |after.log|
      ensures ForeignKeysHold(env.users, after.rows, after.log[i].record.body)
    {
      ReferencesSurvive(env.users, core.rows, after.rows, after.log[i].record.body);
    }
  }

  lemma WriteKeepsGroupsDistinct(env: Env, core: Core, rec: Record, now: Time, orderly: bool)
    requires Tagged(core.rows) && GroupsDistinct(env, core.rows)
    requires Write(env, core, rec, now).Some? && Vetted(env, core.rows, rec, now, orderly)
    ensures GroupsDistinct(env, Write(env, core, rec, now).value.rows)
  {
    hide ForeignKeysHold, FitsIndexes, WriteAll;
    var after := Write(env, core, rec, now).value.rows;
    var key := KeyOf(rec);
    forall k, l | k in after && l in after && k != l
      ensures !SameGroup(env, after[k], after[l])
    {
      var other := if k == key then l else k;
      if (k == key || l == key) && SameGroup(env, after[k], after[l]) {
        assert false;
      }
    }
  }

  lemma WriteKeepsOrder(core: Core, after: Core, row: LogRow)
    requires LogOrdered(core) && NotAfter(core, row.at) && row.changeId == core.nextId
    requires after.log == core.log + [row] && after.nextId == core.nextId + 1
    ensures LogOrdered(after) && NotAfter(after, row.at)
  {
    forall i, j | 0 <= i < j < |after.log|
      ensures after.log[i].at <= after.log[j].at && after.log[i].changeId < after.log[j].changeId
    {
      assert after.log[i] == core.log[i];
      assert j < |core.log| ==> after.log[j] == core.log[j];
    }
    forall i | 0 <= i < |after.log|
      ensures 1 <= after.log[i].changeId < after.nextId && after.log[i].at <= row.at
    {
      assert i < |core.log| ==> after.log[i] == core.log[i];
    }
  }

  lemma WriteKeepsReplay(env: Env, core: Core, rec: Record, now: Time)
    requires AllStored(env, core.log) && core.rows == Replay(env, core.log)
    requires Write(env, core, rec, now).Some?
    ensures var after := Write(env, core, rec, now).value;
      AllStored(env, after.log) && after.rows == Replay(env, after.log)
  {
    hide ToRow, ForeignKeysHold, FitsIndexes, EntityOf, Put;
    var after := Write(env, core, rec, now).value;
    assert after.log[..|after.log| - 1] == core.log;
  }

  lemma WriteKeepsNames(env: Env, core: Core, rec: Record, now: Time, orderly: bool)
    requires Tagged(core.rows) && Named(core.rows)
    requires Vetted(env, core.rows, rec, now, orderly) && Write(env, core, rec, now).Some?
    ensures var after := Write(env, core, rec, now).value; Tagged(after.rows) && Named(after.rows)
  {
    ToRowKeepsEntity(env, rec);
    hide ToRow, ForeignKeysHold, FitsIndexes, GroupNameTaken;
  }

  /** Any one vetted write keeps the invariant. */
  lemma WriteKeepsInvariant(env: Env, core: Core, rec: Record, now: Time, orderly: bool)
    requires Invariant(env, core) && NotAfter(core, now)
    requires Vetted(env, core.rows, rec, now, orderly) && Write(env, core, rec, now).Some?
    ensures Invariant(env, Write(env, core, rec, now).value)
    ensures NotAfter(Write(env, core, rec, now).value, now)
  {
    hide ToRow, ForeignKeysHold, FitsIndexes, Collides, EntityOf, Vetted;
    WriteKeepsReferenced(env, core, rec, now);
    WriteKeepsGroupsDistinct(env, core, rec, now, orderly);
    WriteKeepsReplay(env, core, rec, now);
    WriteKeepsOrder(core, Write(env, core, rec, now).value, LogRow(core.nextId, rec, now));
    WriteKeepsNames(env, core, rec, now, orderly);
    WriteKeepsIndexed(core.rows, KeyOf(rec), ToRow(env, rec).value);
    hide AllStored, Referenced, GroupsDistinct, Indexed, Tagged, Named, LogOrdered, NotAfter, Replay;
  }

  /** Runs keep the invariant. */
  lemma {:induction false} BatchKeepsInvariant(env: Env, core: Core, recs: seq<Record>, now: Time, orderly: bool)
    requires Invariant(env, core) && NotAfter(core, now)
    requires VettedAll(env, core, recs, now, orderly)
    ensures Invariant(env, WriteAll(env, core, recs, now).value)
    ensures NotAfter(WriteAll(env, core, recs, now).value, now)
  {
    hide Invariant, Write, Vetted, NotAfter;
    if recs != [] {
      var n := |recs| - 1;
      assert VettedAt(env, core, recs, now, orderly, n);
      forall i | 0 <= i < n
        ensures VettedAt(env, core, recs[..n], now, orderly, i)
      {
        assert VettedAt(env, core, recs, now, orderly, i);
        assert recs[..n][..i] == recs[..i];
      }
      BatchKeepsInvariant(env, core, recs[..n], now, orderly);
      WriteKeepsInvariant(env, WriteAll(env, core, recs[..n], now).value, recs[n], now, orderly);
    }
  }

  lemma EvolvesKeepsInvariant(env: Env, before: Core, after: Core, now: Time, orderly: bool)
    requires Evolves(env, before, after, now, orderly) && Invariant(env, before) && NotAfter(before, now)
    ensures Invariant(env, after) && NotAfter(after, now)
  {
    hide Invariant, NotAfter, VettedAll, WriteAll;
    var recs :| VettedAll(env, before, recs, now, orderly) && WriteAll(env, before, recs, now) == Some(after);
    BatchKeepsInvariant(env, before, recs, now, orderly);
  }

  /** A failed call leaves nothing behind, but the sequence does not give its change ids back. */
  ghost predicate SkipsIds(before: Core, after: Core) {
    after == before.(nextId := after.nextId) && before.nextId <= after.nextId
  }

  /** The states of a serial run whose server clock does not go back, starting from empty tables. */
  ghost predicate SerialRun(env: Env, states: seq<Core>, times: seq<Time>, orderly: bool) {
    && |states| == |times| + 1
    && states[0] == EMPTY_CORE
    && (forall i, j | 0 <= i < j < |times| :: times[i] <= times[j])
    && (forall i | 0 <= i < |times| ::
          Evolves(env, states[i], states[i + 1], times[i], orderly) || SkipsIds(states[i], states[i + 1]))
  }

  lemma SkippingKeepsInvariant(env: Env, core: Core, after: Core, now: Time)
    requires Invariant(env, core) && NotAfter(core, now) && SkipsIds(core, after)
    ensures Invariant(env, after) && NotAfter(after, now)
  {
  }

  /** Every state of every serial run satisfies the invariant. */
  lemma {:induction false} SerialRunsKeepInvariant(env: Env, states: seq<Core>, times: seq<Time>, orderly: bool, n: nat)
    requires SerialRun(env, states, times, orderly)
    requires n < |states|
    ensures Invariant(env, states[n])
    ensures forall i | n <= i < |times| :: NotAfter(states[n], times[i])
  {
    hide Evolves;
    if n > 0 {
      SerialRunsKeepInvariant(env, states, times, orderly, n - 1);
      assert NotAfter(states[n - 1], times[n - 1]);
      if SkipsIds(states[n - 1], states[n]) {
        SkippingKeepsInvariant(env, states[n - 1], states[n], times[n - 1]);
      } else {
        EvolvesKeepsInvariant(env, states[n - 1], states[n], times[n - 1], orderly);
      }
    }
  }

  // ----- main results -------------------------------------------------------

  /** A reachable state: some serial run ends in it. */
  ghost predicate Reachable(env: Env, core: Core) {
    exists states: seq<Core>, times: seq<Time> ::
      SerialRun(env, states, times, false) && states[|states| - 1] == core
  }

  lemma ReachableInvariant(env: Env, core: Core)
    requires Reachable(env, core)
    ensures Invariant(env, core)
  {
    hide Invariant, Evolves;
    var states: seq<Core>, times: seq<Time> :| SerialRun(env, states, times, false) && states[|states| - 1] == core;
    SerialRunsKeepInvariant(env, states, times, false, |states| - 1);
  }

  /** `client` holds exactly the live rows of `rows`, each with every column but created_at. */
  ghost predicate Mirrors(env: Env, client: map<Key, Record>, rows: Rows) {
    && (forall k :: k in client <==> k in rows && rows[k].deletedAt.None?)
    && (forall k | k in client ::
          && KeyOf(client[k]) == k
          && ToRow(env, client[k]).Some?
          && ToRow(env, client[k]).value.(createdAt := rows[k].createdAt) == rows[k])
  }

  lemma {:induction false} FoldMirrorsReplay(env: Env, log: seq<LogRow>)
    requires AllStored(env, log)
    ensures Mirrors(env, ClientFold(log), Replay(env, log))
  {
    hide EntityOf, ToColumns;
    if log != [] {
      var n := |log| - 1;
      FoldMirrorsReplay(env, log[..n]);
      var rec := log[n].record;
      assert ToRow(env, rec).Some?;
      assert ToRow(env, rec).value.deletedAt.None? <==> rec.deletedAt.None?;
      hide ToRow;
    }
  }

  /** Replay equals rebase: a client that applied the whole log holds exactly the live tables, on every
      column but created_at. */
  lemma ReplayEqualsRebase(env: Env, core: Core)
    requires Reachable(env, core)
    ensures Mirrors(env, ClientFold(core.log), core.rows)
  {
    hide Reachable, Mirrors, Tagged, Named, Referenced, Indexed, GroupsDistinct, LogOrdered;
    ReachableInvariant(env, core);
    FoldMirrorsReplay(env, core.log);
  }

  /** Rebase, for a caller who may read everything: the live rows, rendered as payloads. */
  function Rebased(env: Env, rows: Rows): map<Key, Record> {
    map k | k in rows && rows[k].deletedAt.None? :: FromRow(env, k.id, rows[k])
  }

  /** Rebase answers with exactly the live rows, each as it is stored, created_at included. Replaying the log gives a
      client the same ids, and payloads that say the same about every column but created_at. */
  lemma FoldMatchesRebase(env: Env, core: Core)
    requires ValidEnv(env) && Reachable(env, core)
    ensures var client, rebased := ClientFold(core.log), Rebased(env, core.rows);
      && client.Keys == rebased.Keys
      && (forall k :: k in rebased <==> k in core.rows && core.rows[k].deletedAt.None?)
      && (forall k | k in rebased ::
            && KeyOf(client[k]) == KeyOf(rebased[k]) == k
            && ToRow(env, rebased[k]) == Some(core.rows[k])
            && ToRow(env, client[k]).Some?
            && ToRow(env, client[k]).value.(createdAt := core.rows[k].createdAt) == core.rows[k])
  {
    ReplayEqualsRebase(env, core);
    ReachableInvariant(env, core);
    var client, rebased := ClientFold(core.log), Rebased(env, core.rows);
    hide Reachable, ClientFold, Replay, Indexed, Referenced, Named, GroupsDistinct, LogOrdered, AllStored;
    forall k | k in client
      ensures KeyOf(rebased[k]) == k && ToRow(env, rebased[k]) == Some(core.rows[k])
    {
      RebasedRow(env, k, core.rows[k], client[k]);
    }
    hide ToRow, FromRow, EntityOf, ValidEnv;
  }

  lemma RebasedRow(env: Env, k: Key, row: Row, rec: Record)
    requires ValidEnv(env) && EntityOf(row.body) == k.entity
    requires ToRow(env, rec).Some? && ToRow(env, rec).value.body == row.body
    ensures KeyOf(FromRow(env, k.id, row)) == k && ToRow(env, FromRow(env, k.id, row)) == Some(row)
  {
    ReadBackRoundTrip(env, k.id, row);
  }

  /** created_at really can differ: the log carries what the client sent, the table what it had first. */
  lemma CreatedAtMayDiffer(env: Env, early: Time, late: Time, now: Time, later: Time)
    requires ValidEnv(env) && early != late && now <= later
    ensures var club := Club(None, "A", None, None, None, None, true);
      var first := Record("c", env.formatTime(early), env.formatTime(now), env.formatTime(now), "synced", None, club);
      var second := first.(createdAt := env.formatTime(late));
      var one := Write(env, EMPTY_CORE, first, now);
      var two := Write(env, one.value, second, later);
      && one.Some? && two.Some?
      && two.value.log[1].record.createdAt == env.formatTime(late)
      && two.value.rows[Key(Clubs, "c")].createdAt == early
  {
    assert env.parseTime(env.formatTime(early)) == Some(early);
    assert env.parseTime(env.formatTime(late)) == Some(late);
    assert env.parseTime(env.formatTime(now)) == Some(now);
  }

  lemma InvariantParts(env: Env, core: Core)
    requires Invariant(env, core)
    ensures Tagged(core.rows) && Indexed(core.rows) && Referenced(env, core) && GroupsDistinct(env, core.rows)
    ensures core.rows == Replay(env, core.log)
  {
  }

  lemma {:induction false} FirstAndLast(env: Env, log: seq<LogRow>, k: Key) returns (first: nat, last: nat)
    requires AllStored(env, log) && k in Replay(env, log)
    ensures first <= last < |log| && KeyOf(log[first].record) == KeyOf(log[last].record) == k
    ensures forall n | 0 <= n < first || last < n < |log| :: KeyOf(log[n].record) != k
    ensures Replay(env, log)[k].createdAt == ToRow(env, log[first].record).value.createdAt
    ensures k in ClientFold(log) ==> ClientFold(log)[k] == log[last].record
  {
    hide ToRow, EntityOf;
    var n := |log| - 1;
    assert ToRow(env, log[n].record).Some?;
    if k in Replay(env, log[..n]) {
      first, last := FirstAndLast(env, log[..n], k);
      if KeyOf(log[n].record) == k {
        last := n;
      }
    } else {
      first, last := n, n;
      NeverLogged(env, log[..n], k);
    }
  }

  lemma {:induction false} NeverLogged(env: Env, log: seq<LogRow>, k: Key)
    requires AllStored(env, log) && k !in Replay(env, log)
    ensures forall n | 0 <= n < |log| :: KeyOf(log[n].record) != k
  {
    hide ToRow, EntityOf;
    if log != [] {
      var n := |log| - 1;
      assert ToRow(env, log[n].record).Some?;
      NeverLogged(env, log[..n], k);
    }
  }

  /** Exactly when a client knows a live row's creation time: when the last payload logged for it says the same as the
      first. */
  lemma CreatedAtAgreesExactly(env: Env, core: Core, k: Key) returns (first: nat, last: nat)
    requires Reachable(env, core) && k in core.rows && core.rows[k].deletedAt.None?
    ensures first <= last < |core.log| && KeyOf(core.log[first].record) == KeyOf(core.log[last].record) == k
    ensures forall n | 0 <= n < first || last < n < |core.log| :: KeyOf(core.log[n].record) != k
    ensures k in ClientFold(core.log) && ToRow(env, ClientFold(core.log)[k]).Some?
    ensures ToRow(env, core.log[first].record).Some? && ToRow(env, core.log[last].record).Some?
    ensures ToRow(env, ClientFold(core.log)[k]).value == core.rows[k] <==>
      ToRow(env, core.log[last].record).value.createdAt == ToRow(env, core.log[first].record).value.createdAt
  {
    ReachableInvariant(env, core);
    ReplayEqualsRebase(env, core);
    hide Reachable, Replay, ClientFold, ToRow, Tagged, Indexed, Referenced, Named, GroupsDistinct, LogOrdered, EntityOf;
    first, last := FirstAndLast(env, core.log, k);
  }

  /** The uniqueness rules of the schema, and the stricter one for group names, in every reachable state. */
  lemma LiveValuesUnique(env: Env, core: Core, k: Key, l: Key)
    requires Reachable(env, core)
    requires k in core.rows && l in core.rows && k != l && k.entity == l.entity
    requires core.rows[k].deletedAt.None? && core.rows[l].deletedAt.None?
    ensures EntityOf(core.rows[k].body) == EntityOf(core.rows[l].body) == k.entity
    ensures ValuesApart(env, core.rows[k].body, core.rows[l].body)
  {
    ReachableInvariant(env, core);
    InvariantParts(env, core);
    hide Invariant, Reachable, Tagged, Indexed, GroupsDistinct;
    LiveRowsApart(env, core.rows, k, l);
    hide ValuesApart, Collides, SameGroup;
    NotCollidingApart(env, core.rows[k], core.rows[l]);
  }

  /** Two records of one entity do not share the value that has to be unique. */
  ghost predicate ValuesApart(env: Env, a: Columns, b: Columns)
    requires EntityOf(a) == EntityOf(b)
  {
    match a
    case Club(code, _, _, _, _, _, _) => code.Some? ==> code != b.code
    case ClubGroup(clubId, name, _, _) => clubId == b.clubId ==> env.normalize(name) != env.normalize(b.name)
    case ClubSchedule(clubId, weekday, _) => clubId == b.clubId ==> weekday != b.weekday
    case BeltRank(_, order, _, _) => order != b.order
    case Student(code, _, _, _, _, _, _, _, _, _, _, _, _) => code.Some? ==> code != b.studentCode
    case Profile(studentId, _) => studentId != b.studentId
    case StudentSchedule(studentId, weekday, _) => studentId == b.studentId ==> weekday != b.weekday
    case Attendance(sessionId, studentId, _, _, _) => sessionId == b.sessionId ==> studentId != b.studentId
    case Message(_, _, kind, _, _, _, _, about, _, _) =>
      kind == b.messageType == "attendance_note" && about.Some? ==> about != b.aboutRecord
    case Session(_, _, _, _) => true
  }

  lemma NotCollidingApart(env: Env, a: Row, b: Row)
    requires EntityOf(a.body) == EntityOf(b.body) && a.deletedAt.None? && b.deletedAt.None?
    requires !SameGroup(env, a, b) && !Collides(a, b)
    ensures ValuesApart(env, a.body, b.body)
  {
  }

  lemma LiveRowsApart(env: Env, rows: Rows, k: Key, l: Key)
    requires Tagged(rows) && Indexed(rows) && GroupsDistinct(env, rows)
    requires k in rows && l in rows && k != l && k.entity == l.entity
    requires rows[k].deletedAt.None? && rows[l].deletedAt.None?
    ensures EntityOf(rows[k].body) == EntityOf(rows[l].body) == k.entity
    ensures !SameGroup(env, rows[k], rows[l]) && !Collides(rows[k], rows[l])
  {
    hide Collides, SameGroup, EntityOf;
  }

  // ----- the reopen rule over whole runs --------------------------------------

  /** Every session write in the log followed the reopen rule on the tables as they were before it. */
  ghost predicate ReopenHistory(env: Env, log: seq<LogRow>) {
    forall i | 0 <= i < |log| :: FollowsReopenRule(env, Replay(env, log[..i]), log[i].record, log[i].at)
  }

  lemma WriteKeepsReopenHistory(env: Env, core: Core, rec: Record, now: Time)
    requires ReopenHistory(env, core.log) && core.rows == Replay(env, core.log)
    requires FollowsReopenRule(env, core.rows, rec, now) && Write(env, core, rec, now).Some?
    ensures ReopenHistory(env, Write(env, core, rec, now).value.log)
  {
    hide ToRow, ForeignKeysHold, FitsIndexes, FollowsReopenRule, Replay, EntityOf;
    var log := Write(env, core, rec, now).value.log;
    forall i | 0 <= i < |log|
      ensures FollowsReopenRule(env, Replay(env, log[..i]), log[i].record, log[i].at)
    {
      assert log[..i] == core.log[..i];
      if i == |core.log| {
        assert core.log[..i] == core.log;
      }
    }
  }

  lemma {:induction false} BatchKeepsReopenHistory(env: Env, core: Core, recs: seq<Record>, now: Time)
    requires Invariant(env, core) && NotAfter(core, now) && ReopenHistory(env, core.log)
    requires VettedAll(env, core, recs, now, true)
    ensures ReopenHistory(env, WriteAll(env, core, recs, now).value.log)
  {
    hide NotAfter, Tagged, Indexed, Referenced, Named, GroupsDistinct, LogOrdered, AllStored, Replay, Write,
      FollowsReopenRule, ReopenHistory;
    if recs != [] {
      var n := |recs| - 1;
      assert VettedAt(env, core, recs, now, true, n);
      forall i | 0 <= i < n
        ensures VettedAt(env, core, recs[..n], now, true, i)
      {
        assert VettedAt(env, core, recs, now, true, i);
        assert recs[..n][..i] == recs[..i];
      }
      BatchKeepsReopenHistory(env, core, recs[..n], now);
      BatchKeepsInvariant(env, core, recs[..n], now, true);
      WriteKeepsReopenHistory(env, WriteAll(env, core, recs[..n], now).value, recs[n], now);
    }
  }

  lemma OrderlyStepKeepsHistory(env: Env, before: Core, after: Core, now: Time)
    requires Invariant(env, before) && NotAfter(before, now) && ReopenHistory(env, before.log)
    requires Evolves(env, before, after, now, true) || SkipsIds(before, after)
    ensures ReopenHistory(env, after.log)
  {
    hide Invariant, NotAfter, ReopenHistory, VettedAll, WriteAll;
    if !SkipsIds(before, after) {
      var recs :| VettedAll(env, before, recs, now, true) && WriteAll(env, before, recs, now) == Some(after);
      BatchKeepsReopenHistory(env, before, recs, now);
    }
  }

  /** In every orderly serial run the whole history follows the reopen rule. */
  lemma {:induction false} OrderlyRunsFollowReopenRule(env: Env, states: seq<Core>, times: seq<Time>, n: nat)
    requires SerialRun(env, states, times, true) && n < |states|
    ensures ReopenHistory(env, states[n].log)
  {
    if n > 0 {
      hide VettedAll, WriteAll, ReopenHistory, Invariant;
      OrderlyRunsFollowReopenRule(env, states, times, n - 1);
      SerialRunsKeepInvariant(env, states, times, true, n - 1);
      OrderlyStepKeepsHistory(env, states[n - 1], states[n], times[n - 1]);
      hide Evolves, SkipsIds;
    }
  }

  ghost predicate HasStatus(rows: Rows, k: Key, completed: bool) {
    k in rows && rows[k].body.Session? && (rows[k].body.status == "completed") == completed
  }

  /** If a session was completed at one point of the log and is not at a later one, then some write in between took it
      out of that status, and the UTC date of that write is the session date stored just before it. */
  lemma {:induction false} ReopenedOnItsOwnDate(env: Env, log: seq<LogRow>, k: Key, i: nat, j: nat) returns (n: nat)
    requires ValidEnv(env) && ReopenHistory(env, log) && i <= j <= |log| && k.entity == AttendanceSessions
    requires HasStatus(Replay(env, log[..i]), k, true) && HasStatus(Replay(env, log[..j]), k, false)
    ensures i <= n < j && KeyOf(log[n].record) == k
    ensures HasStatus(Replay(env, log[..n]), k, true) && HasStatus(Replay(env, log[..n + 1]), k, false)
    ensures Replay(env, log[..n])[k].body.sessionDate == DateOf(log[n].at)
    decreases j
  {
    hide Replay, Restore, FollowsReopenRule;
    if i == j {
      assert false;
    }
    SessionStaysSession(env, log, k, i, j - 1);
    ReplayStep(env, log, j - 1);
    var before := Replay(env, log[..j - 1]);
    assert FollowsReopenRule(env, before, log[j - 1].record, log[j - 1].at);
    hide ReopenHistory;
    if HasStatus(before, k, true) {
      n := j - 1;
      ReopeningWrite(env, before, log[n].record, log[n].at, k);
    } else {
      n := ReopenedOnItsOwnDate(env, log, k, i, j - 1);
    }
  }

  lemma ReplayStep(env: Env, log: seq<LogRow>, i: nat)
    requires i < |log|
    ensures Replay(env, log[..i + 1]) == Restore(env, Replay(env, log[..i]), log[i].record)
  {
    assert log[..i + 1][..i] == log[..i];
    hide Restore;
  }

  lemma ReopeningWrite(env: Env, rows: Rows, rec: Record, at: Time, k: Key)
    requires ValidEnv(env) && FollowsReopenRule(env, rows, rec, at)
    requires HasStatus(rows, k, true) && HasStatus(Restore(env, rows, rec), k, false)
    ensures KeyOf(rec) == k && rows[k].body.sessionDate == DateOf(at)
  {
    RestoreChangesStatus(env, rows, rec, k);
    hide Restore;
    assert env.parseDate(env.formatDate(rows[k].body.sessionDate)) == Some(rows[k].body.sessionDate);
    assert env.parseDate(env.formatDate(DateOf(at))) == Some(DateOf(at));
  }

  lemma RestoreChangesStatus(env: Env, rows: Rows, rec: Record, k: Key)
    requires HasStatus(rows, k, true) && HasStatus(Restore(env, rows, rec), k, false)
    ensures KeyOf(rec) == k && rec.body.Session? && rec.body.status != "completed"
  {
  }

  /** Once a key holds a session it always does. */
  lemma {:induction false} SessionStaysSession(env: Env, log: seq<LogRow>, k: Key, i: nat, j: nat)
    requires i <= j <= |log|
    requires k in Replay(env, log[..i]) && Replay(env, log[..i])[k].body.Session? && k.entity == AttendanceSessions
    ensures k in Replay(env, log[..j]) && Replay(env, log[..j])[k].body.Session?
  {
    if i < j {
      SessionStaysSession(env, log, k, i, j - 1);
      assert log[..j][..j - 1] == log[..j - 1];
    }
  }
}
