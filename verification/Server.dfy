/** The server as a whole: any sequence of requests, each one a serial transaction, starting from an empty database. */
module Server {
  import opened Text
  import opened Records
  import opened Tables
  import opened Lookups
  import opened History
  import opened Authorization
  import opened Canonical
  import opened CanonicalProofs
  import opened PushSpec
  import opened PushProofs
  import opened PullSpec
  import opened PullProofs
  import opened AttendanceSpec
  import opened AttendanceProofs
  import opened AttendanceResults
  import opened ExpectedSpec
  import opened ExpectedStudents
  import opened CreateSessionSpec
  import opened CreateSessionProofs
  import opened ImportSpec
  import opened ImportProofs
  import opened ScopeTotality

  datatype Request =
    | PushRequest(caller: Caller, device: string, mutations: seq<Mutation>)
    | ActionsRequest(caller: Caller, device: string, actions: seq<Action>)
    | ClubsRequest(caller: Caller, generate: string -> string, clubs: seq<ClubRow>)
    | BeltsRequest(caller: Caller, belts: seq<BeltRow>)
    | StudentsRequest(caller: Caller, students: seq<StudentRow>)
    | SessionRequest(caller: Caller, clubId: string, date: string, notes: Option<string>, weekday: string,
                     sessionId: string, newIds: nat -> string)
    | FailedRequest

  /** One request at server time `now`, as the service methods answer it. A failed request leaves at most a gap in the
      change ids; an import without rows and a refused session creation leave not even that. */
  ghost predicate Serves(env: Env, before: Db, request: Request, after: Db, now: Time)
    requires ValidEnv(env)
  {
    match request
    case PushRequest(caller, device, mutations) =>
      var result := PushAll(env, caller, device, now, before, mutations);
      result.Pushed? && after == result.db
    case ActionsRequest(caller, device, actions) =>
      var result := ActionsAll(env, caller, device, now, before, actions);
      result.ActionsPushed? && after == result.db
    case ClubsRequest(caller, generate, clubs) =>
      var result := ImportAllClubs(env, generate, before.core, clubs, now);
      caller.sysAdmin && clubs != [] && result.Some?
        && after == before.(core := result.value, audit := before.audit + [ImportAudit(caller, Clubs)])
    case BeltsRequest(caller, belts) =>
      var result := ImportAllBelts(env, before.core, belts, now);
      caller.sysAdmin && belts != [] && result.BeltsDone?
        && after == before.(core := result.core, audit := before.audit + [ImportAudit(caller, BeltRanks)])
    case StudentsRequest(caller, students) =>
      var result := ImportAllStudents(env, caller, before, students, now);
      && students != [] && (forall row | row in students :: row.id != "")
      && result.StudentsDone? && after == result.db.(audit := result.db.audit + [ImportAudit(caller, Students)])
    case SessionRequest(caller, clubId, date, notes, weekday, sessionId, newIds) =>
      && MayCreate(env, caller, before.core.rows, clubId, date) && FreshIds(before.core.rows, sessionId, newIds)
      && exists students: seq<Record> :: CreatesSession(env, before, request, students, after, now)
    case FailedRequest => SkipsIds(before.core, after.core) && after == before.(core := after.core)
  }

  ghost predicate CreatesSession(env: Env, before: Db, request: Request, students: seq<Record>, after: Db, now: Time)
    requires request.SessionRequest?
  {
    var session := NewSession(env, request.sessionId, request.clubId, request.date, request.notes, now);
    var written :=
      WriteAll(env, before.core, [session] + NewRecords(env, request.newIds, request.sessionId, students, now), now);
    && AreExpected(before.core.rows, request.clubId, request.weekday, students)
    && written.Some?
    && after == before.(core := written.value, audit := before.audit + [CreationAudit(request.caller, session)])
  }

  /** The states of a server run; its clock does not go back. */
  ghost predicate ServerRun(env: Env, dbs: seq<Db>, requests: seq<Request>, times: seq<Time>) {
    && ValidEnv(env)
    && |dbs| == |requests| + 1 == |times| + 1
    && dbs[0] == EMPTY_DB
    && (forall i, j | 0 <= i < j < |times| :: times[i] <= times[j])
    && (forall i | 0 <= i < |requests| :: Serves(env, dbs[i], requests[i], dbs[i + 1], times[i]))
  }

  /** No Push of the run deletes a session under the status draft. */
  ghost predicate Orderly(requests: seq<Request>) {
    forall i | 0 <= i < |requests| && requests[i].PushRequest? ::
      forall m | m in requests[i].mutations :: !DeletesAsDraft(m.operation, m.record)
  }

  /** Every request is a transaction of vetted writes, orderly ones in an orderly run. */
  lemma ServingEvolves(env: Env, before: Db, request: Request, after: Db, now: Time, orderly: bool)
    requires ValidEnv(env) && Invariant(env, before.core) && NotAfter(before.core, now)
    requires Serves(env, before, request, after, now)
    requires orderly && request.PushRequest? ==> forall m | m in request.mutations ::
      !DeletesAsDraft(m.operation, m.record)
    ensures Evolves(env, before.core, after.core, now, orderly) || SkipsIds(before.core, after.core)
  {
    hide Evolves, Invariant, NotAfter, PushAll, ActionsAll, WriteAll, ImportAllClubs, ImportAllBelts, ImportAllStudents,
      ValidEnv, DeletesAsDraft, CreatesSession, MayCreate, FreshIds;
    match request
    case PushRequest(caller, device, mutations) =>
      PushEvolves(env, caller, device, now, before, mutations, orderly);
    case ActionsRequest(caller, device, actions) =>
      ActionsEvolve(env, caller, device, now, before, actions);
      OrderlyIsVetted(env, before.core, after.core, now, orderly);
    case ClubsRequest(caller, generate, clubs) =>
      ClubImportEvolves(env, generate, before.core, clubs, now);
      OrderlyIsVetted(env, before.core, after.core, now, orderly);
    case BeltsRequest(caller, belts) =>
      BeltImportEvolves(env, before.core, belts, now);
      OrderlyIsVetted(env, before.core, after.core, now, orderly);
    case StudentsRequest(caller, students) =>
      StudentImportEvolves(env, caller, before, students, now);
      OrderlyIsVetted(env, before.core, after.core, now, orderly);
    case SessionRequest(_, _, _, _, _, _, _) =>
      var students: seq<Record> :| CreatesSession(env, before, request, students, after, now);
      CreationEvolves(env, before, request, students, after, now);
      OrderlyIsVetted(env, before.core, after.core, now, orderly);
    case FailedRequest =>
  }

  lemma CreationEvolves(env: Env, before: Db, request: Request, students: seq<Record>, after: Db, now: Time)
    requires ValidEnv(env) && Invariant(env, before.core) && request.SessionRequest?
    requires MayCreate(env, request.caller, before.core.rows, request.clubId, request.date)
    requires FreshIds(before.core.rows, request.sessionId, request.newIds)
    requires CreatesSession(env, before, request, students, after, now)
    ensures Evolves(env, before.core, after.core, now, true)
  {
    hide Evolves, Invariant, ValidEnv, FreshIds, FoundSession, WriteAll, NormalizeOptional, NewRecords, Expected,
      Created;
    var session := NewSession(env, request.sessionId, request.clubId, request.date, request.notes, now);
    CreationSucceeds(env, before.core, session, request.newIds, students, request.clubId, request.date, request.notes,
                     now);
  }

  /** A transaction of orderly writes is one of vetted writes. */
  lemma OrderlyIsVetted(env: Env, before: Core, after: Core, now: Time, orderly: bool)
    requires Evolves(env, before, after, now, true)
    ensures Evolves(env, before, after, now, orderly)
  {
    hide WriteAll, FollowsReopenRule;
    var recs :| VettedAll(env, before, recs, now, true) && WriteAll(env, before, recs, now) == Some(after);
    forall i | 0 <= i < |recs|
      ensures VettedAt(env, before, recs, now, orderly, i)
    {
      assert VettedAt(env, before, recs, now, true, i);
    }
    assert VettedAll(env, before, recs, now, orderly);
  }

  ghost function Cores(dbs: seq<Db>): seq<Core> {
    seq(|dbs|, i requires 0 <= i < |dbs| => dbs[i].core)
  }

  /** Every server run is a serial run of the store. */
  lemma {:induction false} ServerRunsAreSerial(env: Env, dbs: seq<Db>, requests: seq<Request>, times: seq<Time>, n: nat,
                                               orderly: bool)
    requires ServerRun(env, dbs, requests, times) && n < |dbs|
    requires orderly ==> Orderly(requests)
    ensures SerialRun(env, Cores(dbs[..n + 1]), times[..n], orderly)
  {
    hide Serves, Evolves, Invariant, ValidEnv, DeletesAsDraft, SkipsIds;
    var states := Cores(dbs[..n + 1]);
    if n > 0 {
      var front := Cores(dbs[..n]);
      ServerRunsAreSerial(env, dbs, requests, times, n - 1, orderly);
      SerialRunsKeepInvariant(env, front, times[..n - 1], orderly, n - 1);
      SerialRunBounded(env, front, times[..n - 1], orderly, times[n - 1]);
      ServingEvolves(env, dbs[n - 1], requests[n - 1], dbs[n], times[n - 1], orderly);
      assert forall i | 0 <= i < n :: states[i] == front[i];
      assert states[n] == dbs[n].core;
      forall i | 0 <= i < n
        ensures Evolves(env, states[i], states[i + 1], times[..n][i], orderly) || SkipsIds(states[i], states[i + 1])
      {
        assert i < n - 1 ==> front[i + 1] == states[i + 1] && times[..n - 1][i] == times[..n][i];
      }
    }
  }

  /** The log of a serial run holds nothing later than its transactions. */
  lemma {:induction false} SerialRunBounded(env: Env, states: seq<Core>, times: seq<Time>, orderly: bool, now: Time)
    requires SerialRun(env, states, times, orderly)
    requires forall t | t in times :: t <= now
    ensures NotAfter(states[|times|], now)
  {
    var n := |times|;
    if n > 0 {
      hide Evolves, SkipsIds, NotAfter;
      SerialRunBounded(env, states[..n], times[..n - 1], orderly, times[n - 1]);
      SerialRunsKeepInvariant(env, states, times, orderly, n - 1);
      assert times[n - 1] in times;
      StepBounded(env, states[n - 1], states[n], times[n - 1], now, orderly);
    }
  }

  lemma StepBounded(env: Env, before: Core, after: Core, at: Time, now: Time, orderly: bool)
    requires Evolves(env, before, after, at, orderly) || SkipsIds(before, after)
    requires Invariant(env, before) && NotAfter(before, at) && at <= now
    ensures NotAfter(after, now)
  {
    hide Evolves, Invariant;
    if !SkipsIds(before, after) {
      EvolvesKeepsInvariant(env, before, after, at, orderly);
    }
  }

  // ----- what every run of the server guarantees ---------------------------------------

  /** Whatever requests the server has served: a client that applied the whole change log holds exactly the live tables,
      on every column but created_at; every log row belongs to a club that exists, or to everyone; and the log stands in
      cursor order. */
  lemma EveryRunReplays(env: Env, dbs: seq<Db>, requests: seq<Request>, times: seq<Time>, n: nat)
    requires ServerRun(env, dbs, requests, times) && n < |dbs|
    ensures var core := dbs[n].core;
      && Reachable(env, core)
      && Mirrors(env, ClientFold(core.log), core.rows)
      && InCursorOrder(core.log) == core.log
      && forall i | 0 <= i < |core.log| ::
           var scope := StoredScope(core.rows, core.log[i].record);
           scope.Some? && (scope.value.ClubScope? ==> Stored(core.rows, Clubs, scope.value.clubId))
  {
    ServerRunsAreSerial(env, dbs, requests, times, n, false);
    var states := Cores(dbs[..n + 1]);
    assert states[|states| - 1] == dbs[n].core;
    hide SerialRun, ServerRun, Mirrors, InCursorOrder, StoredScope;
    assert Reachable(env, dbs[n].core);
    ReplayEqualsRebase(env, dbs[n].core);
    ReachableLogSorted(env, dbs[n].core);
    hide Reachable;
    forall i: nat | i < |dbs[n].core.log|
      ensures var scope := StoredScope(dbs[n].core.rows, dbs[n].core.log[i].record);
        scope.Some? && (scope.value.ClubScope? ==> Stored(dbs[n].core.rows, Clubs, scope.value.clubId))
    {
      LogScopesResolve(env, dbs[n].core, i);
    }
  }

  /** In a run without draft deletes, a session that was completed at one request and is not at a later one was reopened
      in between by a write whose UTC date is the session date stored just before it. */
  lemma ReopenedOnlyOnItsDate(env: Env, dbs: seq<Db>, requests: seq<Request>, times: seq<Time>, id: string, i: nat,
                              j: nat) returns (n: nat)
    requires ServerRun(env, dbs, requests, times) && Orderly(requests) && i <= j < |dbs|
    requires HasStatus(dbs[i].core.rows, Key(AttendanceSessions, id), true)
    requires HasStatus(dbs[j].core.rows, Key(AttendanceSessions, id), false)
    ensures var log := dbs[j].core.log;
      && |dbs[i].core.log| <= n < |log| && KeyOf(log[n].record) == Key(AttendanceSessions, id)
      && HasStatus(Replay(env, log[..n]), Key(AttendanceSessions, id), true)
      && HasStatus(Replay(env, log[..n + 1]), Key(AttendanceSessions, id), false)
      && Replay(env, log[..n])[Key(AttendanceSessions, id)].body.sessionDate == DateOf(log[n].at)
  {
    hide HasStatus, Replay, ReopenHistory, Orderly, Invariant, Evolves, Serves, SkipsIds, ValidEnv;
    var k := Key(AttendanceSessions, id);
    ServerRunsAreSerial(env, dbs, requests, times, j, true);
    var states := Cores(dbs[..j + 1]);
    assert states[i] == dbs[i].core && states[j] == dbs[j].core;
    hide ServerRun;
    OrderlyRunsFollowReopenRule(env, states, times[..j], j);
    SerialRunsKeepInvariant(env, states, times[..j], true, i);
    SerialRunsKeepInvariant(env, states, times[..j], true, j);
    InvariantParts(env, states[i]);
    InvariantParts(env, states[j]);
    LogsGrow(env, states, times[..j], true, i, j);
    var log := dbs[j].core.log;
    assert log[..|dbs[i].core.log|] == dbs[i].core.log && log[..|log|] == log;
    ServerEnvIsValid(env, dbs, requests, times);
    n := ReopenedOnItsOwnDate(env, log, k, |dbs[i].core.log|, |log|);
  }

  lemma ServerEnvIsValid(env: Env, dbs: seq<Db>, requests: seq<Request>, times: seq<Time>)
    requires ServerRun(env, dbs, requests, times)
    ensures ValidEnv(env)
  {
  }

  /** The change log is only ever extended. */
  lemma {:induction false} LogsGrow(env: Env, states: seq<Core>, times: seq<Time>, orderly: bool, i: nat, j: nat)
    requires SerialRun(env, states, times, orderly) && i <= j < |states|
    ensures states[i].log <= states[j].log
  {
    if i < j {
      LogsGrow(env, states, times, orderly, i, j - 1);
      hide WriteAll, VettedAll;
      if !SkipsIds(states[j - 1], states[j]) {
        assert Evolves(env, states[j - 1], states[j], times[j - 1], orderly);
        var recs :| VettedAll(env, states[j - 1], recs, times[j - 1], orderly)
          && WriteAll(env, states[j - 1], recs, times[j - 1]) == Some(states[j]);
        WriteAllEffect(env, states[j - 1], recs, times[j - 1]);
      }
    }
  }
}
