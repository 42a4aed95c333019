/** What Push computes: each mutation of a request in turn, on one server time. */
module PushSpec {
  import opened Text
  import opened Records
  import opened Tables
  import opened Authorization
  import opened Canonical

  /** A row of audit_logs. */
  datatype AuditRow = AuditRow(
    actor: string, club: Option<string>, entity: EntityName, entityId: Option<string>, action: string,
    oldValue: Option<Record>, newValue: Option<Record>, reference: string)

  /** The whole database: tables and change log, sync_processed_mutations, sync_counters, audit_logs. */
  datatype Db = Db(core: Core, processed: set<(string, string)>, counter: nat, audit: seq<AuditRow>)

  const EMPTY_DB := Db(EMPTY_CORE, {}, 0, [])

  datatype Outcome = Applied(record: Record) | Conflicted(reason: Reason) | AlreadyProcessed

  datatype Step = Failed | Stepped(db: Db, outcome: Outcome)

  datatype PushResult = PushFailed | Pushed(db: Db, outcomes: seq<Outcome>)

  /** validateMutation */
  predicate WellFormed(env: Env, m: Mutation) {
    && m.mutationId != "" && m.recordId != "" && m.clientModifiedAt != ""
    && env.parseTime(m.clientModifiedAt).Some?
    && (m.operation.Upsert? || m.operation.Delete?)
  }

  /** mutationAuditAction */
  function AuditAction(m: Mutation, existing: Option<Row>): string {
    if m.operation.Delete? then "delete"
    else if existing.None? || existing.value.deletedAt.Some? then "create"
    else "update"
  }

  function MutationAudit(env: Env, caller: Caller, scope: Scope, m: Mutation, existing: Option<Row>,
                         rec: Record): AuditRow {
    AuditRow(caller.userId,
             if scope.ClubScope? && scope.clubId != "" then Some(scope.clubId) else None,
             m.entity, Some(m.recordId), AuditAction(m, existing),
             if existing.Some? then Some(FromRow(env, m.recordId, existing.value)) else None,
             if m.operation.Delete? then None else Some(rec),
             m.mutationId)
  }

  /** The stored row was modified after the client's edit, as the two time texts compare. */
  predicate IsStale(env: Env, m: Mutation, existing: Option<Row>) {
    existing.Some? && TextLess(m.clientModifiedAt, env.formatTime(existing.value.lastModifiedAt))
  }

  /** One round of the Push loop. */
  function PushOne(env: Env, caller: Caller, device: string, now: Time, db: Db, m: Mutation): Step {
    if !WellFormed(env, m) then Failed
    else if (device, m.mutationId) in db.processed then Stepped(db, AlreadyProcessed)
    else if m.entity.OtherEntity? then Failed
    else PushFresh(env, caller, device, now, db, m)
  }

  /** A mutation this device has not sent before. */
  function PushFresh(env: Env, caller: Caller, device: string, now: Time, db: Db, m: Mutation): Step {
    var existing := Lookup(db.core.rows, m.entity, m.recordId);
    match Authorize(caller, db.core.rows, m, existing)
    case Unresolved => Failed
    case Forbidden => Stepped(db, Conflicted(NoPermission))
    case Allowed(scope) =>
      if IsStale(env, m, existing) then Stepped(db, Conflicted(StaleWrite))
      else
        match Canonicalize(env, db.core.rows, db.counter, m.entity, m.operation, m.recordId, m.record, now, existing)
        case Broken => Failed
        case Rejected(reason, counter) => Stepped(db.(counter := counter), Conflicted(reason))
        case Canonical(rec, counter) =>
          match Write(env, db.core, rec, now)
          case None => Failed
          case Some(core) =>
            Stepped(Db(core, db.processed + {(device, m.mutationId)}, counter,
                       db.audit + [MutationAudit(env, caller, scope, m, existing, rec)]),
                    Applied(rec))
  }

  /** The Push loop over a whole request. */
  function PushAll(env: Env, caller: Caller, device: string, now: Time, db: Db, ms: seq<Mutation>): PushResult {
    if ms == [] then Pushed(db, [])
    else
      match PushAll(env, caller, device, now, db, ms[..|ms| - 1])
      case PushFailed => PushFailed
      case Pushed(before, outcomes) =>
        match PushOne(env, caller, device, now, before, ms[|ms| - 1])
        case Failed => PushFailed
        case Stepped(after, outcome) => Pushed(after, outcomes + [outcome])
  }

  /** The records of the response's applied list. */
  function AppliedRecords(outcomes: seq<Outcome>): seq<Record> {
    if outcomes == [] then []
    else
      var last := outcomes[|outcomes| - 1];
      AppliedRecords(outcomes[..|outcomes| - 1]) + if last.Applied? then [last.record] else []
  }

  /** The response's conflict list: mutation ids and reasons. */
  function Conflicts(ms: seq<Mutation>, outcomes: seq<Outcome>): seq<(string, Reason)>
    requires |ms| == |outcomes|
  {
    if outcomes == [] then []
    else
      var n := |outcomes| - 1;
      Conflicts(ms[..n], outcomes[..n]) + if outcomes[n].Conflicted? then [(ms[n].mutationId, outcomes[n].reason)]
        else []
  }
}

module PushProofs {
  import opened Text
  import opened Records
  import opened Tables
  import opened Lookups
  import opened History
  import opened Authorization
  import opened Canonical
  import opened CanonicalProofs
  import opened PushSpec

  /** What one mutation does to the database, by outcome. */
  lemma PushOneEffect(env: Env, caller: Caller, device: string, now: Time, db: Db, m: Mutation)
    requires PushOne(env, caller, device, now, db, m).Stepped?
    ensures var Stepped(after, outcome) := PushOne(env, caller, device, now, db, m);
      match outcome
      case AlreadyProcessed => after == db && (device, m.mutationId) in db.processed
      case Conflicted(_) =>
        && (device, m.mutationId) !in db.processed
        && after == db.(counter := after.counter)
        && (after.counter == db.counter || (m.entity == Students && after.counter == db.counter + 1))
      case Applied(rec) =>
        && (device, m.mutationId) !in db.processed
        && after.processed == db.processed + {(device, m.mutationId)}
        && KeyOf(rec) == Key(m.entity, m.recordId)
        && !IsStale(env, m, Lookup(db.core.rows, m.entity, m.recordId))
        && rec.lastModifiedAt == env.formatTime(now)
        && Vetted(env, db.core.rows, rec, now, !DeletesAsDraft(m.operation, m.record))
        && db.counter <= after.counter <= db.counter + 1
        && Write(env, db.core, rec, now) == Some(after.core)
        && |after.audit| == |db.audit| + 1 && db.audit <= after.audit
        && after.audit[|db.audit|].entityId == Some(m.recordId)
        && after.audit[|db.audit|].entity == m.entity
        && after.audit[|db.audit|].reference == m.mutationId
        && after.audit[|db.audit|].actor == caller.userId
  {
    hide Write, IsStale, Authorize;
    var existing := Lookup(db.core.rows, m.entity, m.recordId);
    var step := PushOne(env, caller, device, now, db, m);
    if step.outcome.Applied? {
      CanonicalIsVetted(env, db.core.rows, db.counter, m.entity, m.operation, m.recordId, m.record, now, existing);
      hide Vetted;
    }
  }

  /** The audit row of an applied mutation tells the row before it and the row after it, on every column but created_at;
      it speaks of a creation exactly if no live row was there. */
  lemma PushAudits(env: Env, caller: Caller, device: string, now: Time, db: Db, m: Mutation)
    requires ValidEnv(env) && PushOne(env, caller, device, now, db, m).Stepped?
    requires PushOne(env, caller, device, now, db, m).outcome.Applied?
    requires forall k | k in db.core.rows && db.core.rows[k].body.BeltRank? ::
      -INT32_MAX - 1 <= db.core.rows[k].body.order <= INT32_MAX
    ensures var after := PushOne(env, caller, device, now, db, m).db;
      var key := Key(m.entity, m.recordId);
      && |after.audit| == |db.audit| + 1
      && key in after.core.rows
      && (var row := after.audit[|db.audit|];
          && row.oldValue.Some? == (key in db.core.rows)
          && (key in db.core.rows ==> ToRow(env, row.oldValue.value) == Some(db.core.rows[key]))
          && row.newValue.None? == m.operation.Delete?
          && (!m.operation.Delete? ==>
                && ToRow(env, row.newValue.value).Some?
                && ToRow(env, row.newValue.value).value.(createdAt := after.core.rows[key].createdAt)
                     == after.core.rows[key])
          && row.action == (if m.operation.Delete? then "delete"
                            else if Live(db.core.rows, m.entity, m.recordId) then "update" else "create"))
  {
    var key := Key(m.entity, m.recordId);
    PushOneEffect(env, caller, device, now, db, m);
    if key in db.core.rows {
      ReadBackRoundTrip(env, m.recordId, db.core.rows[key]);
    }
    hide ToRow, FromRow, ForeignKeysHold, FitsIndexes, Canonicalize, IsStale, Authorize, Vetted, EntityOf, WellFormed;
  }

  /** Exactly when an applied session mutation breaks the reopen rule: when it is a delete that calls a session stored
      as completed a draft, on another date than the session's. */
  lemma ReopenRuleExactly(env: Env, caller: Caller, device: string, now: Time, db: Db, m: Mutation)
    requires m.entity == AttendanceSessions
    requires PushOne(env, caller, device, now, db, m).Stepped?
    requires PushOne(env, caller, device, now, db, m).outcome.Applied?
    ensures var rec := PushOne(env, caller, device, now, db, m).outcome.record;
      var existing := Lookup(db.core.rows, AttendanceSessions, m.recordId);
      FollowsReopenRule(env, db.core.rows, rec, now) <==>
        !(DeletesAsDraft(m.operation, m.record)
          && existing.Some? && existing.value.body.Session? && existing.value.body.status == "completed"
          && env.formatDate(existing.value.body.sessionDate) != env.formatDate(DateOf(now)))
  {
    PushOneEffect(env, caller, device, now, db, m);
    AcceptKeepsFields(env, db.core.rows, db.counter, m.operation, m.recordId, m.record.rec.body, now,
                      Lookup(db.core.rows, m.entity, m.recordId));
    hide Write, IsStale, Authorize, GroupNameTaken, WellFormed, Live;
  }

  /** An applied mutation was permitted by the club it belongs to: the scope the caller was checked against is the one
      its log row resolves to afterwards, for every reader. */
  lemma PushAuthorized(env: Env, caller: Caller, device: string, now: Time, db: Db, m: Mutation)
    requires Tagged(db.core.rows)
    requires PushOne(env, caller, device, now, db, m).Stepped?
    requires PushOne(env, caller, device, now, db, m).outcome.Applied?
    ensures var Stepped(after, outcome) := PushOne(env, caller, device, now, db, m);
      var scope := StoredScope(after.core.rows, outcome.record);
      && scope.Some? && scope == MutationScope(db.core.rows, m, Lookup(db.core.rows, m.entity, m.recordId))
      && (var permissions := caller.permissions(if scope.value.ClubScope? then scope.value.clubId else "");
          WritePermission(m.entity, m.operation).Some? ==>
            permissions.Some? && WritePermission(m.entity, m.operation).value in permissions.value)
  {
    hide Vet, Write, ToRow, IsStale, Vetted, DeletesAsDraft, StudentClub, SessionClub, StudentCode, TrimSpace, Tagged;
    var Stepped(after, outcome) := PushOne(env, caller, device, now, db, m);
    var existing := Lookup(db.core.rows, m.entity, m.recordId);
    AcceptKeepsFields(env, db.core.rows, db.counter, m.operation, m.recordId, m.record.rec.body, now, existing);
    PushOneEffect(env, caller, device, now, db, m);
    WriteKeepsClubOf(env, db.core, outcome.record, now);
  }

  /** A record leads to the same club before and after it is written. */
  lemma WriteKeepsClubOf(env: Env, core: Core, rec: Record, now: Time)
    requires Write(env, core, rec, now).Some? && Tagged(core.rows)
    ensures ClubOf(Write(env, core, rec, now).value.rows, rec.body) == ClubOf(core.rows, rec.body)
  {
    ToRowKeepsEntity(env, rec);
    hide ToRow, ForeignKeysHold, FitsIndexes;
  }

  /** The processed keys of the applied mutations. */
  ghost function AppliedIds(device: string, ms: seq<Mutation>, outcomes: seq<Outcome>): set<(string, string)>
    requires |ms| == |outcomes|
  {
    set i | 0 <= i < |ms| && outcomes[i].Applied? :: (device, ms[i].mutationId)
  }

  /** Accounting: every mutation of a request that did not fail ends in exactly one outcome. The change log, the
      audit log and the processed set grow by exactly the applied ones, in request order. */
  lemma {:induction false} PushAccounting(env: Env, caller: Caller, device: string, now: Time, db: Db,
                                          ms: seq<Mutation>)
    requires PushAll(env, caller, device, now, db, ms).Pushed?
    ensures var Pushed(after, outcomes) := PushAll(env, caller, device, now, db, ms);
      var recs := AppliedRecords(outcomes);
      && |outcomes| == |ms|
      && WriteAll(env, db.core, recs, now) == Some(after.core)
      && after.processed == db.processed + AppliedIds(device, ms, outcomes)
      && |after.audit| == |db.audit| + |recs| && db.audit <= after.audit
      && db.counter <= after.counter
  {
    hide Write, PushOne, AppliedIds, WriteAll, AppliedRecords;
    if ms == [] {
      NothingApplied(env, db.core, now, device);
    } else {
      var n := |ms| - 1;
      PushAccounting(env, caller, device, now, db, ms[..n]);
      var Pushed(before, outcomes) := PushAll(env, caller, device, now, db, ms[..n]);
      var Stepped(after, outcome) := PushOne(env, caller, device, now, before, ms[n]);
      AccountingStep(env, caller, device, now, db, ms, before, outcomes);
      assert PushAll(env, caller, device, now, db, ms) == Pushed(after, outcomes + [outcome]);
      hide PushAll;
    }
  }

  /** One more mutation. */
  lemma AccountingStep(env: Env, caller: Caller, device: string, now: Time, db: Db, ms: seq<Mutation>, before: Db,
                       outcomes: seq<Outcome>)
    requires ms != [] && |outcomes| == |ms| - 1 && PushOne(env, caller, device, now, before, ms[|ms| - 1]).Stepped?
    requires WriteAll(env, db.core, AppliedRecords(outcomes), now) == Some(before.core)
    requires before.processed == db.processed + AppliedIds(device, ms[..|ms| - 1], outcomes)
    requires |before.audit| == |db.audit| + |AppliedRecords(outcomes)| && db.audit <= before.audit
    requires db.counter <= before.counter
    ensures var Stepped(after, outcome) := PushOne(env, caller, device, now, before, ms[|ms| - 1]);
      var recs := AppliedRecords(outcomes + [outcome]);
      && WriteAll(env, db.core, recs, now) == Some(after.core)
      && after.processed == db.processed + AppliedIds(device, ms, outcomes + [outcome])
      && |after.audit| == |db.audit| + |recs| && db.audit <= after.audit && db.counter <= after.counter
  {
    var m := ms[|ms| - 1];
    var Stepped(after, outcome) := PushOne(env, caller, device, now, before, m);
    PushOneEffect(env, caller, device, now, before, m);
    AppliedNext(outcomes, outcome);
    AppliedIdsNext(device, ms, outcomes, outcome);
    WriteAllNext(env, db.core, AppliedRecords(outcomes), if outcome.Applied? then [outcome.record] else [], now);
    hide PushOne, IsStale, DeletesAsDraft, Vetted, AppliedRecords, AppliedIds, WriteAll, Write;
  }

  lemma NothingApplied(env: Env, core: Core, now: Time, device: string)
    ensures AppliedIds(device, [], []) == {} && AppliedRecords([]) == [] && WriteAll(env, core, [], now) == Some(core)
  {
  }

  lemma AppliedNext(outcomes: seq<Outcome>, outcome: Outcome)
    ensures AppliedRecords(outcomes + [outcome]) == AppliedRecords(outcomes) + if outcome.Applied? then [outcome.record]
      else []
  {
    assert (outcomes + [outcome])[..|outcomes|] == outcomes;
  }

  lemma AppliedIdsNext(device: string, ms: seq<Mutation>, outcomes: seq<Outcome>, outcome: Outcome)
    requires ms != [] && |outcomes| == |ms| - 1
    ensures AppliedIds(device, ms, outcomes + [outcome]) ==
      AppliedIds(device, ms[..|ms| - 1], outcomes) + if outcome.Applied? then {(device, ms[|ms| - 1].mutationId)}
        else {}
  {
    var n := |ms| - 1;
    var more := outcomes + [outcome];
    assert forall i | 0 <= i < n :: more[i] == outcomes[i] && ms[..n][i] == ms[i];
    assert more[n] == outcome;
    forall i | 0 <= i < |ms| && more[i].Applied?
      ensures (device, ms[i].mutationId) in AppliedIds(device, ms[..n], outcomes) + if outcome.Applied?
        then {(device, ms[n].mutationId)} else {}
    {
      if i < n {
        assert outcomes[i].Applied? && ms[..n][i].mutationId == ms[i].mutationId;
      }
    }
    forall i | 0 <= i < n && outcomes[i].Applied?
      ensures (device, ms[..n][i].mutationId) in AppliedIds(device, ms, more)
    {
      assert more[i].Applied? && ms[i].mutationId == ms[..n][i].mutationId;
    }
    if outcome.Applied? {
      assert more[n].Applied?;
    }
  }

  /** One record more, or none. */
  lemma WriteAllNext(env: Env, core: Core, recs: seq<Record>, last: seq<Record>, now: Time)
    requires |last| <= 1 && WriteAll(env, core, recs, now).Some?
    ensures WriteAll(env, core, recs + last, now) ==
      if last == [] then WriteAll(env, core, recs, now)
        else Write(env, WriteAll(env, core, recs, now).value, last[0], now)
  {
    hide Write;
    if last == [] {
      assert recs + last == recs;
    } else {
      assert (recs + last)[..|recs|] == recs;
    }
  }

  /** The log rows of a request carry the applied payloads, the server time and consecutive ids. */
  lemma PushLogs(env: Env, caller: Caller, device: string, now: Time, db: Db, ms: seq<Mutation>)
    requires PushAll(env, caller, device, now, db, ms).Pushed?
    ensures var Pushed(after, outcomes) := PushAll(env, caller, device, now, db, ms);
      var recs := AppliedRecords(outcomes);
      && |after.core.log| == |db.core.log| + |recs|
      && db.core.log <= after.core.log
      && (forall i | 0 <= i < |recs| ::
            after.core.log[|db.core.log| + i] == LogRow(db.core.nextId + i, recs[i], now))
  {
    hide Write, PushOne;
    PushAccounting(env, caller, device, now, db, ms);
    WriteAllEffect(env, db.core, AppliedRecords(PushAll(env, caller, device, now, db, ms).outcomes), now);
  }

  /** Push is one serial transaction of vetted writes, orderly ones if no mutation deletes a session as a draft. */
  lemma {:induction false} PushEvolves(env: Env, caller: Caller, device: string, now: Time, db: Db, ms: seq<Mutation>,
                                       orderly: bool)
    requires PushAll(env, caller, device, now, db, ms).Pushed?
    requires orderly ==> forall m | m in ms :: !DeletesAsDraft(m.operation, m.record)
    ensures Evolves(env, db.core, PushAll(env, caller, device, now, db, ms).db.core, now, orderly)
  {
    hide Write, PushOne, Evolves, FollowsReopenRule, DeletesAsDraft;
    if ms == [] {
      EvolvesNothing(env, db.core, now, orderly);
    } else {
      var n := |ms| - 1;
      PushEvolves(env, caller, device, now, db, ms[..n], orderly);
      var before := PushAll(env, caller, device, now, db, ms[..n]).db;
      var Stepped(after, outcome) := PushOne(env, caller, device, now, before, ms[n]);
      PushOneEffect(env, caller, device, now, before, ms[n]);
      if outcome.Applied? {
        EvolvesWrite(env, before.core, outcome.record, now, orderly);
        EvolvesTogether(env, db.core, before.core, after.core, now, orderly);
      }
    }
  }

  /** At most once: within a request no mutation id is applied twice, nor one that was processed before. */
  lemma PushAtMostOnce(env: Env, caller: Caller, device: string, now: Time, db: Db, ms: seq<Mutation>, i: nat, j: nat)
    requires PushAll(env, caller, device, now, db, ms).Pushed?
    requires i <= j < |ms| == |PushAll(env, caller, device, now, db, ms).outcomes|
    requires PushAll(env, caller, device, now, db, ms).outcomes[j].Applied?
    ensures (device, ms[j].mutationId) !in db.processed
    ensures i < j && ms[i].mutationId == ms[j].mutationId ==>
      !PushAll(env, caller, device, now, db, ms).outcomes[i].Applied?
  {
    hide PushOne, Write;
    PushPrefix(env, caller, device, now, db, ms, j + 1);
    var before := PushAll(env, caller, device, now, db, ms[..j]);
    assert ms[..j + 1][..j] == ms[..j];
    PushOneEffect(env, caller, device, now, before.db, ms[j]);
    PushAccounting(env, caller, device, now, db, ms[..j]);
    PushPrefix(env, caller, device, now, db, ms, j);
    if i < j && before.outcomes[i].Applied? {
      assert (device, ms[..j][i].mutationId) in before.db.processed;
    }
  }

  /** A request that does not fail does not fail on any prefix, and the outcomes of the prefix stand. */
  lemma {:induction false} PushPrefix(env: Env, caller: Caller, device: string, now: Time, db: Db, ms: seq<Mutation>,
                                      n: nat)
    requires PushAll(env, caller, device, now, db, ms).Pushed? && n <= |ms|
    ensures PushAll(env, caller, device, now, db, ms[..n]).Pushed?
    ensures |PushAll(env, caller, device, now, db, ms).outcomes| == |ms|
    ensures PushAll(env, caller, device, now, db, ms[..n]).outcomes
      == PushAll(env, caller, device, now, db, ms).outcomes[..n]
  {
    hide PushOne;
    if n == |ms| {
      assert ms[..n] == ms;
      PushAccounting(env, caller, device, now, db, ms);
    } else {
      var front := ms[..|ms| - 1];
      PushPrefix(env, caller, device, now, db, front, n);
      assert front[..n] == ms[..n];
    }
  }

  /** A request fails as soon as a prefix of it fails. */
  lemma PushFailsEarly(env: Env, caller: Caller, device: string, now: Time, db: Db, ms: seq<Mutation>, n: nat)
    requires n <= |ms| && PushAll(env, caller, device, now, db, ms[..n]).PushFailed?
    ensures PushAll(env, caller, device, now, db, ms).PushFailed?
  {
    hide PushAll;
    if PushAll(env, caller, device, now, db, ms).Pushed? {
      PushPrefix(env, caller, device, now, db, ms, n);
    }
  }

  /** A request whose mutations were all processed before changes nothing, whatever their order and repetition. */
  lemma {:induction false} ProcessedRequestIsNoOp(env: Env, caller: Caller, device: string, now: Time, db: Db,
                                                  ms: seq<Mutation>)
    requires forall m | m in ms :: WellFormed(env, m) && (device, m.mutationId) in db.processed
    ensures PushAll(env, caller, device, now, db, ms) == Pushed(db, seq(|ms|, i => AlreadyProcessed))
  {
    hide PushFresh;
    if ms != [] {
      ProcessedRequestIsNoOp(env, caller, device, now, db, ms[..|ms| - 1]);
    }
  }

  /** Retrying a request that had no conflicts, at any later time, reordered and with duplicates, is a no-op. */
  lemma RetryIsNoOp(env: Env, caller: Caller, device: string, now: Time, db: Db, ms: seq<Mutation>, later: Time,
                    again: seq<Mutation>)
    requires PushAll(env, caller, device, now, db, ms).Pushed?
    requires forall o | o in PushAll(env, caller, device, now, db, ms).outcomes :: !o.Conflicted?
    requires forall m | m in again :: m in ms
    ensures var after := PushAll(env, caller, device, now, db, ms).db;
      PushAll(env, caller, device, later, after, again) == Pushed(after, seq(|again|, i => AlreadyProcessed))
  {
    hide PushOne, Write;
    var Pushed(after, outcomes) := PushAll(env, caller, device, now, db, ms);
    forall m | m in again
      ensures WellFormed(env, m) && (device, m.mutationId) in after.processed
    {
      var i: nat :| i < |ms| && ms[i] == m;
      PushedMutation(env, caller, device, now, db, ms, i);
    }
    ProcessedRequestIsNoOp(env, caller, device, later, after, again);
  }

  /** Every mutation of a request that did not fail was well-formed, and ends processed unless it conflicted. */
  lemma PushedMutation(env: Env, caller: Caller, device: string, now: Time, db: Db, ms: seq<Mutation>, i: nat)
    requires PushAll(env, caller, device, now, db, ms).Pushed? && i < |ms|
    ensures var Pushed(after, outcomes) := PushAll(env, caller, device, now, db, ms);
      && WellFormed(env, ms[i])
      && |outcomes| == |ms|
      && (outcomes[i].Conflicted? || (device, ms[i].mutationId) in after.processed)
  {
    hide PushFresh, Write, WellFormed;
    var Pushed(after, outcomes) := PushAll(env, caller, device, now, db, ms);
    PushPrefix(env, caller, device, now, db, ms, i + 1);
    PushPrefix(env, caller, device, now, db, ms, i);
    assert ms[..i + 1][..i] == ms[..i];
    var before := PushAll(env, caller, device, now, db, ms[..i]).db;
    var here := PushAll(env, caller, device, now, db, ms[..i + 1]);
    assert WellFormed(env, ms[i]);
    assert here.outcomes[i] == outcomes[i];
    hide PushOne;
    PushOneEffect(env, caller, device, now, before, ms[i]);
    PushAccounting(env, caller, device, now, db, ms);
    if outcomes[i].AlreadyProcessed? {
      PushAccounting(env, caller, device, now, db, ms[..i]);
      var earlier := PushAll(env, caller, device, now, db, ms[..i]).outcomes;
      assert (device, ms[i].mutationId) in before.processed;
      if (device, ms[i].mutationId) !in db.processed {
        var j :| 0 <= j < i && earlier[j].Applied? && (device, ms[..i][j].mutationId) == (device, ms[i].mutationId);
        assert outcomes[j].Applied?;
      }
    }
  }

  /** If every client time in the request reads earlier than the server time, each record changes at most once. */
  lemma PushOncePerRecord(env: Env, caller: Caller, device: string, now: Time, db: Db, ms: seq<Mutation>, i: nat,
                          j: nat)
    requires ValidEnv(env)
    requires PushAll(env, caller, device, now, db, ms).Pushed?
    requires |PushAll(env, caller, device, now, db, ms).outcomes| == |ms|
    requires forall m | m in ms :: TextLess(m.clientModifiedAt, env.formatTime(now))
    requires i < j < |ms|
    requires PushAll(env, caller, device, now, db, ms).outcomes[i].Applied?
    requires PushAll(env, caller, device, now, db, ms).outcomes[j].Applied?
    ensures Key(ms[i].entity, ms[i].recordId) != Key(ms[j].entity, ms[j].recordId)
  {
    hide PushOne, Write;
    PushPrefix(env, caller, device, now, db, ms, j + 1);
    PushPrefix(env, caller, device, now, db, ms, j);
    assert ms[..j + 1][..j] == ms[..j];
    var before := PushAll(env, caller, device, now, db, ms[..j]).db;
    PushOneEffect(env, caller, device, now, before, ms[j]);
    AppliedRowIsNew(env, caller, device, now, db, ms[..j], i);
  }

  /** The row of an applied mutation was modified now, and stays so until the end of the request. */
  lemma {:induction false} AppliedRowIsNew(env: Env, caller: Caller, device: string, now: Time, db: Db,
                                           ms: seq<Mutation>, i: nat)
    requires ValidEnv(env)
    requires PushAll(env, caller, device, now, db, ms).Pushed?
    requires i < |ms| == |PushAll(env, caller, device, now, db, ms).outcomes|
    requires PushAll(env, caller, device, now, db, ms).outcomes[i].Applied?
    ensures var rows := PushAll(env, caller, device, now, db, ms).db.core.rows;
      var key := Key(ms[i].entity, ms[i].recordId);
      key in rows && rows[key].lastModifiedAt == now
  {
    hide PushOne, ForeignKeysHold, FitsIndexes, EntityOf, ToColumns;
    var n := |ms| - 1;
    var before := PushAll(env, caller, device, now, db, ms[..n]);
    PushOneEffect(env, caller, device, now, before.db, ms[n]);
    assert env.parseTime(env.formatTime(now)) == Some(now);
    PushPrefix(env, caller, device, now, db, ms, n);
    if i < n {
      AppliedRowIsNew(env, caller, device, now, db, ms[..n], i);
    }
  }

  /** Deleting a completed session under the name of a draft reopens it on any day: the stored status becomes draft. */
  lemma DeleteAsDraftReopens(env: Env, caller: Caller, device: string, now: Time, db: Db, m: Mutation)
    requires m.entity == AttendanceSessions && DeletesAsDraft(m.operation, m.record)
    requires PushOne(env, caller, device, now, db, m).Stepped?
    requires PushOne(env, caller, device, now, db, m).outcome.Applied?
    ensures HasStatus(PushOne(env, caller, device, now, db, m).db.core.rows, Key(AttendanceSessions, m.recordId), false)
  {
    hide Authorize, IsStale, MutationAudit, ForeignKeysHold, FitsIndexes;
  }

  /** And nothing but the ordinary checks stands in its way: it is never refused by the reopen rule. */
  lemma DeleteAsDraftAccepted(env: Env, caller: Caller, device: string, now: Time, db: Db, m: Mutation, scope: Scope)
    requires m.entity == AttendanceSessions && DeletesAsDraft(m.operation, m.record)
    requires WellFormed(env, m) && (device, m.mutationId) !in db.processed
    requires var existing := Lookup(db.core.rows, m.entity, m.recordId);
      Authorize(caller, db.core.rows, m, existing) == Allowed(scope) && !IsStale(env, m, existing)
    requires ValidEnv(env)
    requires var doc := m.record.rec;
      && Live(db.core.rows, Clubs, doc.body.clubId) && doc.body.clubId != ""
      && env.parseDate(doc.body.sessionDate).Some? && (doc.createdAt == "" || env.parseTime(doc.createdAt).Some?)
    ensures PushOne(env, caller, device, now, db, m).Stepped?
    ensures PushOne(env, caller, device, now, db, m).outcome.Applied?
  {
    assert env.parseTime(env.formatTime(now)) == Some(now);
    hide Authorize, IsStale, MutationAudit, WellFormed;
  }
}
