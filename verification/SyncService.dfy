/** Push and Pull as the service runs them, against the store. */
module SyncServiceModel {
  import opened Text
  import opened Records
  import opened Tables
  import opened History
  import opened Authorization
  import opened AccessRules
  import opened Canonical
  import opened CanonicalProofs
  import opened PushSpec
  import opened PushProofs
  import opened PullSpec
  import opened PullProofs
  import opened SyncStoreModel

  /** The keys announced to the hub after a commit. */
  function KeysOf(recs: seq<Record>): seq<Key> {
    if recs == [] then [] else KeysOf(recs[..|recs| - 1]) + [KeyOf(recs[|recs| - 1])]
  }

  /** change_id is a BIGSERIAL primary key. */
  ghost predicate SerialIds(log: seq<LogRow>) {
    DistinctIds(log) && forall i | 0 <= i < |log| :: 0 < log[i].changeId < 0x8000_0000_0000_0000
  }

  /** What one page contributes to the answer. */
  lemma PageRound(read: LogRow -> Readable, rows: seq<LogRow>, limit: nat, next: nat, changes: seq<LogRow>)
    requires next <= |rows| && |changes| < limit
    ensures var end := Min(next + limit, |rows|);
      var readable := Readables(read, rows, next, end);
      PullPages(read, rows, limit, next, changes) ==
        if next == end then Pulled(changes, next, false)
        else if readable.None? then PullFailed
        else
          var changes' := changes + readable.value[..Min(|readable.value|, limit - |changes|)];
          if end - next < limit then Pulled(changes', end, false)
          else if |changes'| >= limit then Pulled(changes', end, true)
          else PullPages(read, rows, limit, end, changes')
  {
  }

  /** What one round of the Pull loop means: the whole call fails, ends with this answer, or goes on from the next
      cursor. */
  ghost predicate RoundDone(env: Env, sorted: seq<LogRow>, read: LogRow -> Readable, limit: nat, since: string,
                            changes: seq<LogRow>,
                            ok: bool, done: bool, hasMore: bool, changes': seq<LogRow>, nextSince: string)
    requires |changes| < limit
  {
    var next, next' := Position(sorted, ParseCursor(env, since)), Position(sorted, ParseCursor(env, nextSince));
    var result := PullPages(read, sorted, limit, next, changes);
    && (!ok ==> ParseCursor(env, since).BadCursor? || result.PullFailed?)
    && (ok ==> !ParseCursor(env, since).BadCursor? && !ParseCursor(env, nextSince).BadCursor?)
    && (ok && done ==> result == Pulled(changes', next', hasMore))
    && (ok && !done ==> |changes'| < limit && next < next' && PullPages(read, sorted, limit, next', changes') == result)
  }

  /** The page of at most `limit` rows that starts at `next`. */
  ghost predicate IsPage(sorted: seq<LogRow>, next: nat, limit: nat, page: seq<LogRow>) {
    next + |page| == Min(next + limit, |sorted|) && page == sorted[next..next + |page|]
  }

  /** What one page adds to the answer: its readable rows while there is room, and the cursor of its last row. */
  ghost predicate PageRead(env: Env, sorted: seq<LogRow>, read: LogRow -> Readable, next: nat, page: seq<LogRow>,
                           limit: nat, changes: seq<LogRow>, ok: bool, changes': seq<LogRow>, nextSince: string)
  {
    && page != [] && next + |page| <= |sorted| && |changes| < limit
    && var readable := Readables(read, sorted, next, next + |page|);
    && ok == readable.Some?
    && (ok ==>
          && changes' == changes + readable.value[..Min(|readable.value|, limit - |changes|)]
          && nextSince == EncodeCursor(env, page[|page| - 1]))
  }

  lemma PageSlice(sorted: seq<LogRow>, next: nat, limit: nat, page: seq<LogRow>)
    requires next <= |sorted| && limit > 0 && page == sorted[next..Min(next + limit, |sorted|)]
    ensures IsPage(sorted, next, limit, page)
    ensures page == [] <==> next == |sorted|
  {
  }

  lemma RoundWithoutPage(env: Env, sorted: seq<LogRow>, read: LogRow -> Readable, limit: nat, since: string,
                         changes: seq<LogRow>, ok: bool)
    requires |changes| < limit && ok == !ParseCursor(env, since).BadCursor?
    requires ok ==> Position(sorted, ParseCursor(env, since)) == |sorted|
    ensures RoundDone(env, sorted, read, limit, since, changes, ok, true, false, changes, since)
  {
    PageRound(read, sorted, limit, Position(sorted, ParseCursor(env, since)), changes);
    hide PullPages, Position, ParseCursor, Readables;
  }

  lemma RoundWithPage(env: Env, log: seq<LogRow>, read: LogRow -> Readable, limit: nat, since: string,
                      changes: seq<LogRow>, page: seq<LogRow>, ok: bool, changes': seq<LogRow>, nextSince: string)
    requires ValidEnv(env) && SerialIds(log)
    requires |changes| < limit && !ParseCursor(env, since).BadCursor? && page != []
    requires var sorted := InCursorOrder(log);
      var next := Position(sorted, ParseCursor(env, since));
      && IsPage(sorted, next, limit, page)
      && PageRead(env, sorted, read, next, page, limit, changes, ok, changes', nextSince)
    ensures RoundDone(env, InCursorOrder(log), read, limit, since, changes, ok,
                      !ok || |page| < limit || |changes'| >= limit,
                      ok && |page| >= limit && |changes'| >= limit, changes', nextSince)
  {
    hide PullPages, Position, ParseCursor, Readables, InCursorOrder, EncodeCursor, ValidEnv, SerialIds;
    var next := Position(InCursorOrder(log), ParseCursor(env, since));
    PageRound(read, InCursorOrder(log), limit, next, changes);
    LastCursorOfPage(env, log, page, next);
  }

  /** The cursor of the last row of a page stands at the end of the page. */
  lemma LastCursorOfPage(env: Env, log: seq<LogRow>, page: seq<LogRow>, next: nat)
    requires ValidEnv(env) && SerialIds(log) && page != []
    requires next + |page| <= |InCursorOrder(log)| && page == InCursorOrder(log)[next..next + |page|]
    ensures var cursor := ParseCursor(env, EncodeCursor(env, page[|page| - 1]));
      !cursor.BadCursor? && Position(InCursorOrder(log), cursor) == next + |page|
  {
    hide EncodeCursor, ParseCursor, InCursorOrder, Position, ValidEnv;
    var sorted := InCursorOrder(log);
    var last := sorted[next + |page| - 1];
    assert page[|page| - 1] == last;
    CursorOrderSorts(log);
    assert last in multiset(sorted);
    assert last in log;
    CursorRoundTrip(env, last);
    PositionOfRow(sorted, next + |page| - 1);
  }

  /** What an answer with these cursor texts delivers of the sorted log: it moves forward, to the end unless there is
      more, and holds the first of the rows in between that the caller may read, as many as the limit admits. */
  ghost predicate DeliversReadable(env: Env, log: seq<LogRow>, rows: Rows, caller: Caller, limit: nat, since: string,
                                   changes: seq<LogRow>, nextSince: string, hasMore: bool)
  {
    var start, next := Position(log, ParseCursor(env, since)), Position(log, ParseCursor(env, nextSince));
    && start <= next
    && changes == UpTo(MayReadRows(caller, rows, log, start, next), limit)
    && (if hasMore then start < next && |changes| == limit else next == |log|)
  }

  /** Any answer of the page loop delivers. */
  lemma PullDelivers(env: Env, core: Core, caller: Caller, since: string, limit: nat)
    requires limit >= 1
    ensures var sorted := InCursorOrder(core.log);
      var result := PullPages(Reader(caller, core.rows), sorted, limit, Position(sorted, ParseCursor(env, since)), []);
      forall changes, nextSince, hasMore
        | result == Pulled(changes, Position(sorted, ParseCursor(env, nextSince)), hasMore) ::
        DeliversReadable(env, sorted, core.rows, caller, limit, since, changes, nextSince, hasMore)
  {
    hide Reader, PullPages, InCursorOrder, Position, ParseCursor, MayReadRows, UpTo;
    var sorted := InCursorOrder(core.log);
    var start := Position(sorted, ParseCursor(env, since));
    if PullPages(Reader(caller, core.rows), sorted, limit, start, []).Pulled? {
      AnsweredPull(caller, core.rows, sorted, limit, start);
    }
  }

  /** On a reachable state a request with a good cursor is answered, and a system administrator gets the stretch of the
      log it moves past. */
  lemma PullOnReachable(env: Env, core: Core, caller: Caller, since: string, limit: nat)
    requires limit >= 1
    ensures Reachable(env, core) && (caller.sysAdmin || AlwaysAnswered(caller)) ==>
      var sorted := InCursorOrder(core.log);
      var start := Position(sorted, ParseCursor(env, since));
      var result := PullPages(Reader(caller, core.rows), sorted, limit, start, []);
      && sorted == core.log && result.Pulled? && start <= result.next <= |sorted|
      && (caller.sysAdmin ==> result.changes == core.log[start..result.next])
  {
    hide Reachable, Reader, PullPages, InCursorOrder, AlwaysAnswered, Position, ParseCursor;
    if Reachable(env, core) && (caller.sysAdmin || AlwaysAnswered(caller)) {
      ReachableLogSorted(env, core);
      ReachablePull(env, core, caller, limit, Position(core.log, ParseCursor(env, since)));
    }
  }

  class SyncService {
    const store: SyncStore

    constructor (store: SyncStore)
      ensures this.store == store
    {
      this.store := store;
    }

    /** canonicalizeMutation, drawing on the student-code counter where a code is missing. */
    method CanonicalizeMutation(m: Mutation, now: Time, existing: Option<Row>) returns (c: Canonicalized)
      modifies store`counter
      ensures var before := old(store.State());
        && c
             == Canonicalize(store.env, before.core.rows, before.counter, m.entity, m.operation, m.recordId, m.record,
                             now, existing)
        && store.State() == before.(counter := if c.Broken? then before.counter else c.newCounter)
    {
      c := Canonicalize(store.env, store.rows, store.counter, m.entity, m.operation, m.recordId, m.record, now,
                        existing);
      if !c.Broken? && c.newCounter != store.counter {
        CounterMovesByOne(store.env, store.rows, store.counter, m, now, existing);
        var code := store.NextStudentCode();
      }
    }

    /** One mutation of a Push request. */
    method PushMutation(caller: Caller, device: string, now: Time, m: Mutation) returns (ok: bool, outcome: Outcome)
      requires !store.aborted
      modifies store
      ensures store.saved == old(store.saved) && store.nextId >= old(store.nextId)
      ensures var step := PushOne(store.env, caller, device, now, old(store.State()), m);
        && ok == step.Stepped?
        && (ok ==> step == Stepped(store.State(), outcome) && !store.aborted)
    {
      var env := store.env;
      outcome := AlreadyProcessed;
      if !WellFormed(env, m) {
        return false, outcome;
      }
      var found, existing;
      ok, found := store.IsMutationProcessed(device, m.mutationId);
      if found {
        return;
      }
      ok, existing := store.GetRecordForUpdate(m.entity, m.recordId);
      if !ok {
        return;
      }
      var authorized := Authorize(caller, store.rows, m, existing);
      if authorized.Unresolved? {
        return false, outcome;
      }
      if authorized.Forbidden? {
        return true, Conflicted(NoPermission);
      }
      if IsStale(env, m, existing) {
        return true, Conflicted(StaleWrite);
      }
      var canonical := CanonicalizeMutation(m, now, existing);
      if canonical.Broken? {
        return false, outcome;
      }
      if canonical.Rejected? {
        return true, Conflicted(canonical.reason);
      }
      ok := store.UpsertRecord(canonical.record, now);
      if !ok {
        return;
      }
      ok := store.SaveProcessedMutation(device, m.mutationId);
      ok := store.InsertAuditLog(MutationAudit(env, caller, authorized.scope, m, existing, canonical.record));
      outcome := Applied(canonical.record);
    }

    /** Push: one transaction for the whole request. On an error nothing of it remains but used-up log ids. */
    method Push(caller: Caller, device: string, now: Time, ms: seq<Mutation>)
      returns (ok: bool, applied: seq<Record>, conflicts: seq<(string, Reason)>, announced: seq<Key>)
      modifies store
      ensures var result := PushAll(store.env, caller, device, now, old(store.State()), ms);
        && ok == (caller.userId != "" && device != "" && result.Pushed?)
        && (ok ==>
              && store.State() == result.db
              && |result.outcomes| == |ms|
              && applied == AppliedRecords(result.outcomes)
              && conflicts == Conflicts(ms, result.outcomes)
              && announced == KeysOf(applied))
      ensures !ok ==>
        && store.nextId >= old(store.nextId)
        && store.State() == old(store.State()).(core := old(store.State()).core.(nextId := store.nextId))
    {
      hide PushOne;
      applied, conflicts, announced := [], [], [];
      if caller.userId == "" || device == "" {
        return false, [], [], [];
      }
      store.Begin();
      ghost var start := store.State();
      ghost var outcomes: seq<Outcome> := [];
      for i := 0 to |ms|
        invariant !store.aborted && store.saved == start && store.nextId >= old(store.nextId)
        invariant PushAll(store.env, caller, device, now, start, ms[..i]) == Pushed(store.State(), outcomes)
        invariant |outcomes| == i
        invariant applied == AppliedRecords(outcomes)
        invariant conflicts == Conflicts(ms[..i], outcomes)
        invariant announced == KeysOf(applied)
      {
        assert ms[..i + 1][..i] == ms[..i];
        var outcome;
        ok, outcome := PushMutation(caller, device, now, ms[i]);
        if !ok {
          store.Rollback();
          PushFailsEarly(store.env, caller, device, now, start, ms, i + 1);
          return false, [], [], [];
        }
        assert (outcomes + [outcome])[..i] == outcomes;
        outcomes := outcomes + [outcome];
        match outcome {
          case Applied(rec) =>
            assert (applied + [rec])[..|applied|] == applied;
            applied, announced := applied + [rec], announced + [KeyOf(rec)];
          case Conflicted(reason) =>
            conflicts := conflicts + [(ms[i].mutationId, reason)];
          case AlreadyProcessed =>
        }
      }
      assert ms[..|ms|] == ms;
      ok := store.Commit();
    }

    /** The rows of one page: the cursor moves to the last, and readable ones are appended while there is room. */
    method ReadPage(caller: Caller, page: seq<LogRow>, limit: nat, changes: seq<LogRow>,
                    cache: map<string, set<Permission>>, ghost sorted: seq<LogRow>, ghost next: nat)
      returns (ok: bool, changes': seq<LogRow>, nextSince: string, cache': map<string, set<Permission>>)
      requires page != [] && |changes| < limit && IsPage(sorted, next, limit, page)
      requires Truthful(caller, cache)
      ensures Truthful(caller, cache')
      ensures PageRead(store.env, sorted, Reader(caller, store.rows), next, page, limit, changes, ok, changes',
                       nextSince)
    {
      hide EncodeCursor, Truthful, ReadDecision;
      ghost var read := Reader(caller, store.rows);
      ghost var readable: seq<LogRow> := [];
      changes', nextSince, cache' := changes, "", cache;
      for i := 0 to |page|
        invariant Truthful(caller, cache')
        invariant Readables(read, sorted, next, next + i) == Some(readable)
        invariant changes' == changes + readable[..Min(|readable|, limit - |changes|)]
        invariant i > 0 ==> nextSince == EncodeCursor(store.env, page[i - 1])
      {
        assert page[i] == sorted[next + i];
        nextSince := EncodeCursor(store.env, page[i]);
        var decision;
        decision, cache' := CanReadStoredRecord(caller, page[i].record, cache');
        assert read(sorted[next + i]) == decision;
        if decision.ReadError? {
          ReadablesFailEarly(read, sorted, next, next + i + 1, next + |page|);
          return false, changes', nextSince, cache';
        }
        if decision.CanRead? {
          if |changes'| < limit {
            changes' := changes' + [page[i]];
          }
          readable := readable + [page[i]];
        }
      }
      ok := true;
    }

    /** One round of the Pull loop: a page is read, or the end of the log is found. */
    method PullRound(caller: Caller, since: string, limit: nat, changes: seq<LogRow>,
                     cache: map<string, set<Permission>>)
      returns (ok: bool, done: bool, hasMore: bool, changes': seq<LogRow>, nextSince: string,
               cache': map<string, set<Permission>>)
      requires ValidEnv(store.env) && SerialIds(store.log)
      requires |changes| < limit && Truthful(caller, cache)
      ensures Truthful(caller, cache')
      ensures RoundDone(store.env, InCursorOrder(store.log), Reader(caller, store.rows), limit, since, changes, ok,
                        done, hasMore, changes', nextSince)
    {
      ghost var sorted := InCursorOrder(store.log);
      ghost var read := Reader(caller, store.rows);
      ghost var next := Position(sorted, ParseCursor(store.env, since));
      hide Reader, Readables, EncodeCursor, ParseCursor, InCursorOrder, Position, ValidEnv, PullPages, SerialIds,
        Truthful, RoundDone;
      done, hasMore, changes', nextSince, cache' := true, false, changes, since, cache;
      var page;
      ok, page := store.ListChangesSince(since, limit);
      if !ok || page == [] {
        RoundWithoutPage(store.env, sorted, read, limit, since, changes, ok);
        return;
      }
      PageSlice(sorted, next, limit, page);
      hide Min, IsPage, PageRead;
      ok, changes', nextSince, cache' := ReadPage(caller, page, limit, changes, cache, sorted, next);
      hasMore := ok && |page| >= limit && |changes'| >= limit;
      done := !ok || |page| < limit || |changes'| >= limit;
      RoundWithPage(store.env, store.log, read, limit, since, changes, page, ok, changes', nextSince);
    }

    /** Pull: pages of the log from the caller's cursor on, filtered by what the caller may read. */
    method Pull(caller: Caller, device: string, since: string, requested: int)
      returns (ok: bool, changes: seq<LogRow>, nextSince: string, hasMore: bool)
      requires ValidEnv(store.env) && SerialIds(store.log)
      ensures var sorted := InCursorOrder(store.log);
        var cursor := ParseCursor(store.env, since);
        var start := Position(sorted, cursor);
        var result := PullPages(Reader(caller, store.rows), sorted, EffectiveLimit(requested), start, []);
        && ok == (caller.userId != "" && device != "" && !cursor.BadCursor? && result.Pulled?)
        && (ok ==>
              && result == Pulled(changes, Position(sorted, ParseCursor(store.env, nextSince)), hasMore)
              && !ParseCursor(store.env, nextSince).BadCursor?)
      ensures Reachable(store.env, store.State().core) && (caller.sysAdmin || AlwaysAnswered(caller)) ==>
        && ok == (caller.userId != "" && device != "" && !ParseCursor(store.env, since).BadCursor?)
        && (ok && caller.sysAdmin ==>
              var log := store.log;
              var start, next := Position(log, ParseCursor(store.env, since)),
                                 Position(log, ParseCursor(store.env, nextSince));
              start <= next && changes == log[start..next])
      ensures ok ==>
        DeliversReadable(store.env, InCursorOrder(store.log), store.rows, caller,
                         if requested < 1 then 200 else requested, since, changes, nextSince, hasMore)
    {
      PullOnReachable(store.env, store.State().core, caller, since, EffectiveLimit(requested));
      PullDelivers(store.env, store.State().core, caller, since, EffectiveLimit(requested));
      changes, nextSince, hasMore := [], since, false;
      if caller.userId == "" || device == "" {
        return false, changes, nextSince, hasMore;
      }
      var limit := EffectiveLimit(requested);
      var cache: map<string, set<Permission>> := map[];
      ghost var sorted := InCursorOrder(store.log);
      ghost var read := Reader(caller, store.rows);
      ghost var start := Position(sorted, ParseCursor(store.env, since));
      assert Truthful(caller, cache);
      hide Reader, ParseCursor, InCursorOrder, Position, ValidEnv, PullPages, SerialIds, Truthful, Reachable,
        DeliversReadable, AlwaysAnswered;
      while |changes| < limit
        invariant |changes| < limit && Truthful(caller, cache)
        invariant ParseCursor(store.env, nextSince).BadCursor? == ParseCursor(store.env, since).BadCursor?
        invariant PullPages(read, sorted, limit, Position(sorted, ParseCursor(store.env, nextSince)), changes)
          == PullPages(read, sorted, limit, start, [])
        decreases |sorted| - Position(sorted, ParseCursor(store.env, nextSince))
      {
        var done;
        ok, done, hasMore, changes, nextSince, cache := PullRound(caller, nextSince, limit, changes, cache);
        if !ok || done {
          return;
        }
      }
    }

    /** canReadStoredRecord, with the answers of the authorizer kept per club. */
    method CanReadStoredRecord(caller: Caller, rec: Record, cache: map<string, set<Permission>>)
      returns (decision: Readable, cache': map<string, set<Permission>>)
      requires Truthful(caller, cache)
      ensures decision == ReadDecision(caller, store.rows, rec)
      ensures decision == CanRead <==> MayRead(caller, store.rows, rec)
      ensures decision == ReadError <==>
        && !rec.body.BeltRank?
        && forall clubId | BelongsTo(store.rows, rec, clubId) :: !caller.sysAdmin && caller.permissions(clubId).None?
      ensures Truthful(caller, cache')
    {
      ReadableExactly(caller, store.rows, rec);
      hide MayRead, BelongsTo;
      cache' := cache;
      var scope := StoredScope(store.rows, rec);
      if scope.None? {
        return ReadError, cache';
      }
      if scope.value.GlobalScope? || caller.sysAdmin {
        return CanRead, cache';
      }
      var permission := ReadPermission(EntityOf(rec.body));
      if permission.None? {
        return CanRead, cache';
      }
      var club := scope.value.clubId;
      if club !in cache' {
        var answer := caller.permissions(club);
        if answer.None? {
          return ReadError, cache';
        }
        cache' := cache'[club := answer.value];
      }
      return if permission.value in cache'[club] then CanRead else Hidden, cache';
    }
  }
}
