/** Attendance actions as the service runs them, against the store. */
module AttendanceServiceModel {
  import opened Text
  import opened Records
  import opened Tables
  import opened Authorization
  import opened Canonical
  import opened CanonicalProofs
  import opened PushSpec
  import opened SyncStoreModel
  import opened AttendanceSpec
  import opened AttendanceProofs

  /** How a step ended: with an error, with a conflict, or with the records it changed. */
  datatype Ending = Error | Conflict(reason: Reason) | Changed(records: seq<Record>)

  /** An ending and the state left behind are what the specification says; after an error the state does not matter. */
  ghost predicate EndsAs(step: ActionStep, ending: Ending, after: Db) {
    match step
    case ActionError => ending == Error
    case Reported(db, reason) => ending == Conflict(reason) && after == db
    case Performed(db, records) => ending == Changed(records) && after == db
  }

  ghost predicate SavesAs(step: SaveStep, ending: Ending, before: Db, after: Db) {
    match step
    case SaveError => ending == Error
    case SaveRefused(reason) => ending == Conflict(reason) && after == before
    case Saved(db, record) => ending == Changed([record]) && after == db
  }

  ghost predicate ListsAs(step: SaveAllStep, ending: Ending) {
    match step
    case AllError => ending == Error
    case AllRefused(reason) => ending == Conflict(reason)
    case AllCanonical(records) => ending == Changed(records)
  }

  class AttendanceService {
    const store: SyncStore

    constructor (store: SyncStore)
      ensures this.store == store
    {
      this.store := store;
    }

    /** upsertAttendanceActionMutation */
    method SaveRecord(operation: Operation, id: string, doc: Record, now: Time, existing: Option<Row>)
      returns (ending: Ending)
      requires !store.aborted
      modifies store
      ensures store.saved == old(store.saved) && store.nextId >= old(store.nextId)
      ensures !ending.Error? ==> !store.aborted
      ensures SavesAs(Save(store.env, old(store.State()), operation, id, doc, now, existing), ending,
                      old(store.State()), store.State())
    {
      var c :=
        Canonicalize(store.env, store.rows, store.counter, EntityOf(doc.body), operation, id, Decoded(doc), now,
                     existing);
      if c.Broken? {
        return Error;
      }
      if c.Rejected? {
        return Conflict(c.reason);
      }
      var ok := store.UpsertRecord(c.record, now);
      if !ok {
        return Error;
      }
      store.counter := c.newCounter;
      ending := Changed([c.record]);
    }

    method WriteAudit(caller: Caller, a: Action, clubId: string, existing: Option<Row>, applied: Record)
      requires !store.aborted
      modifies store`audit
      ensures store.audit == old(store.audit) + [ActionAudit(store.env, caller, a, clubId, existing, applied)]
    {
      var ok := store.InsertAuditLog(ActionAudit(store.env, caller, a, clubId, existing, applied));
    }

    /** Canonicalize payloads one by one, before any of them is written. */
    method CanonicalizeList(operation: Operation, docs: seq<Record>, now: Time) returns (ending: Ending)
      ensures ListsAs(CanonicalizeAll(store.env, store.rows, operation, docs, now), ending)
    {
      hide Canonicalize, EntityOf;
      var recs: seq<Record> := [];
      for i := 0 to |docs|
        invariant CanonicalizeAll(store.env, store.rows, operation, docs[..i], now) == AllCanonical(recs)
      {
        assert docs[..i + 1][..i] == docs[..i];
        var c :=
          Canonicalize(store.env, store.rows, 0, EntityOf(docs[i].body), operation, docs[i].id, Decoded(docs[i]), now,
                       None);
        if !c.Canonical? {
          ending := if c.Broken? then Error else Conflict(c.reason);
          FirstFailureDecides(store.env, store.rows, operation, docs, i + 1, now);
          return;
        }
        recs := recs + [c.record];
      }
      assert docs[..|docs|] == docs;
      ending := Changed(recs);
    }

    method SaveWithAudit(caller: Caller, now: Time, a: Action, doc: Record, row: Row) returns (ending: Ending)
      requires !store.aborted
      modifies store
      ensures store.saved == old(store.saved) && store.nextId >= old(store.nextId)
      ensures !ending.Error? ==> !store.aborted
      ensures EndsAs(SaveAudited(store.env, caller, now, old(store.State()), a, doc, row), ending, store.State())
    {
      ending := SaveRecord(Upsert, doc.id, doc, now, Some(row));
      if ending.Changed? {
        WriteAudit(caller, a, a.clubId, Some(row), ending.records[0]);
      }
    }

    method ApplyCreate(caller: Caller, now: Time, a: Action, session: Record, records: seq<Record>)
      returns (ending: Ending)
      requires !store.aborted
      modifies store
      ensures store.saved == old(store.saved) && store.nextId >= old(store.nextId)
      ensures !ending.Error? ==> !store.aborted
      ensures EndsAs(ApplyCreateSession(store.env, caller, now, old(store.State()), a, session, records), ending,
                     store.State())
    {
      if !session.body.Session? || exists r | r in records :: !r.body.Attendance? {
        return Error;
      }
      if session.id != a.sessionId || session.body.clubId != a.clubId {
        return Conflict(ValidationFailed);
      }
      var ok, existing := store.GetRecordForUpdate(AttendanceSessions, a.sessionId);
      if existing.Some? && existing.value.deletedAt.None? {
        return Conflict(DuplicateValue);
      }
      ending := SaveRecord(Upsert, a.sessionId, session, now, existing);
      if !ending.Changed? {
        return;
      }
      var saved := ending.records[0];
      WriteAudit(caller, a, session.body.clubId, existing, saved);
      ending := CreateTheRecords(now, a, saved, records);
    }

    /** The records of a new session, up to the first that names another session or is refused. */
    method CreateTheRecords(now: Time, a: Action, saved: Record, records: seq<Record>) returns (ending: Ending)
      requires !store.aborted
      modifies store
      ensures store.saved == old(store.saved) && store.nextId >= old(store.nextId)
      ensures !ending.Error? ==> !store.aborted
      ensures EndsAs(CreateRecords(store.env, now, old(store.State()), a, saved, records), ending, store.State())
    {
      var own := OwnRecords(records, a.sessionId);
      ending := CanonicalizeList(Upsert, own, now);
      if !ending.Changed? {
        return;
      }
      if |own| < |records| {
        return Conflict(ValidationFailed);
      }
      var recs := ending.records;
      var ok := store.UpsertBatch(recs, now);
      ending := if ok then Changed([saved] + recs) else Error;
    }

    method ApplyRecordStatus(caller: Caller, now: Time, a: Action) returns (ending: Ending)
      requires a.body.SetRecordStatus? && !store.aborted
      modifies store
      ensures store.saved == old(store.saved) && store.nextId >= old(store.nextId)
      ensures !ending.Error? ==> !store.aborted
      ensures EndsAs(ApplySetRecordStatus(store.env, caller, now, old(store.State()), a), ending, store.State())
    {
      match LoadRecord(store.rows, a)
      case TargetError => return Error;
      case TargetConflict(reason) => return Conflict(reason);
      case Found(row) =>
        if a.body.mark.None? {
          return Error;
        }
        var doc := FromRow(store.env, a.recordId.value, row);
        ending :=
          SaveWithAudit(caller, now, a, doc.(body := MarkFields(doc.body, a.body.mark.value.0, a.body.mark.value.1)),
                        row);
    }

    method ApplySession(caller: Caller, now: Time, a: Action) returns (ending: Ending)
      requires (a.body.SetSessionNote? || a.body.SetSessionStatus?) && !store.aborted
      modifies store
      ensures store.saved == old(store.saved) && store.nextId >= old(store.nextId)
      ensures !ending.Error? ==> !store.aborted
      ensures EndsAs(ApplySetSession(store.env, caller, now, old(store.State()), a), ending, store.State())
    {
      match LoadSession(store.rows, a)
      case TargetError => return Error;
      case TargetConflict(reason) => return Conflict(reason);
      case Found(row) =>
        var doc := FromRow(store.env, a.sessionId, row);
        if a.body.SetSessionNote? {
          if a.body.note.None? {
            return Error;
          }
          ending :=
            SaveWithAudit(caller, now, a, doc.(body := SessionFields(doc.body, row.body.status, a.body.note.value)),
                          row);
        } else {
          if a.body.newStatus.None? {
            return Error;
          }
          ending :=
            SaveWithAudit(caller, now, a, doc.(body := SessionFields(doc.body, a.body.newStatus.value, row.body.notes)),
                          row);
        }
    }

    /** The present-marked payloads of the wanted records; the wanted ids shrink as their records are met. */
    method MarkWanted(sessionId: string, wanted: set<string>, checkInAt: Option<string>)
      returns (docs: seq<Record>, remaining: set<string>)
      requires ValidEnv(store.env)
      ensures var inSession := SessionRecordIds(store.rows, sessionId);
        && docs == PresentDocs(store.env, store.rows, Keep(store.env.listing(inSession), wanted), checkInAt)
        && remaining == wanted - inSession
    {
      hide PresentDocs, Keep, MarkFields, FromRow, ValidEnv;
      docs, remaining := [], wanted;
      ghost var inSession := SessionRecordIds(store.rows, sessionId);
      var order := store.env.listing(SessionRecordIds(store.rows, sessionId));
      ListingLists(store.env, inSession);
      NothingPresent(store.env, store.rows, order, wanted, checkInAt);
      for i := 0 to |order|
        invariant docs == PresentDocs(store.env, store.rows, Keep(order[..i], wanted), checkInAt)
        invariant remaining == wanted - Seen(order[..i])
      {
        assert order[i] in order;
        OnePresent(store.env, store.rows, order, i, wanted, checkInAt);
        if order[i] in wanted {
          var row := store.rows[Key(AttendanceRecords, order[i])];
          var doc := FromRow(store.env, order[i], row);
          docs := docs + [doc.(body := MarkFields(doc.body, "present", checkInAt))];
        }
        remaining := remaining - {order[i]};
      }
      assert order[..|order|] == order;
    }

    /** mark_all_present: what remains of the wanted ids does not belong to the session. */
    method ApplyAllPresent(now: Time, a: Action) returns (ending: Ending)
      requires a.body.MarkAllPresent? && ValidEnv(store.env) && !store.aborted
      modifies store
      ensures store.saved == old(store.saved) && store.nextId >= old(store.nextId)
      ensures !ending.Error? ==> !store.aborted
      ensures EndsAs(ApplyMarkAllPresent(store.env, now, old(store.State()), a), ending, store.State())
    {
      hide PresentDocs, Keep, SessionRecordIds, WriteAll, CanonicalizeAll, ValidEnv;
      var target := LoadSession(store.rows, a);
      if target.TargetError? {
        return Error;
      }
      if target.TargetConflict? {
        return Conflict(target.reason);
      }
      if a.body.targets.None? {
        return Error;
      }
      var (ids, checkInAt) := a.body.targets.value;
      if ids == [] {
        return Changed([]);
      }
      if "" in ids {
        return Conflict(ValidationFailed);
      }
      var wanted := set id | id in ids;
      var docs, remaining := MarkWanted(a.sessionId, wanted, checkInAt);
      ending := CanonicalizeList(Upsert, docs, now);
      if !ending.Changed? {
        return;
      }
      DifferenceEmpty(wanted, SessionRecordIds(store.rows, a.sessionId));
      if remaining != {} {
        return Conflict(ForeignKeyMissing);
      }
      var recs := ending.records;
      var ok := store.UpsertBatch(recs, now);
      ending := if ok then Changed(recs) else Error;
    }

    method ApplyRecordNote(caller: Caller, now: Time, a: Action) returns (ending: Ending)
      requires a.body.SetRecordNote? && !store.aborted
      modifies store
      ensures store.saved == old(store.saved) && store.nextId >= old(store.nextId)
      ensures !ending.Error? ==> !store.aborted
      ensures EndsAs(ApplySetRecordNote(store.env, caller, now, old(store.State()), a), ending, store.State())
    {
      var target := LoadRecord(store.rows, a);
      if target.TargetError? {
        return Error;
      }
      if target.TargetConflict? {
        return Conflict(target.reason);
      }
      if a.body.note.None? {
        return Error;
      }
      var doc := FromRow(store.env, a.recordId.value, target.row);
      var noted := doc.(body := NoteFields(doc.body, a.body.note.value));
      ending := SaveRecord(Upsert, noted.id, noted, now, Some(target.row));
      if !ending.Changed? {
        return;
      }
      var saved := ending.records[0];
      ending := SyncMessage(caller, now, a, noted);
      if !ending.Changed? {
        return;
      }
      WriteAudit(caller, a, a.clubId, Some(target.row), saved);
      ending := Changed([saved]);
    }

    /** syncAttendanceRecordMessage */
    method SyncMessage(caller: Caller, now: Time, a: Action, noted: Record) returns (ending: Ending)
      requires !store.aborted
      modifies store
      ensures store.saved == old(store.saved) && store.nextId >= old(store.nextId)
      ensures !ending.Error? ==> !store.aborted
      ensures EndsAs(SyncNoteMessage(store.env, caller, now, old(store.State()), a, noted), ending, store.State())
    {
      if !noted.body.Attendance? {
        return Error;
      }
      var messageId := NoteMessageId(noted.id);
      var ok, existing := store.GetRecordForUpdate(StudentMessages, messageId);
      if BlankNote(noted.body.notes) {
        if existing.None? {
          return Changed([]);
        }
        ending := SaveRecord(Delete, messageId, FromRow(store.env, messageId, existing.value), now, existing);
      } else {
        var session;
        ok, session := store.GetRecordForUpdate(AttendanceSessions, a.sessionId);
        if session.None? || !session.value.body.Session? {
          return Error;
        }
        ending :=
          SaveRecord(Upsert, messageId, NoteMessage(store.env, caller, a, session.value, noted, existing), now,
                     existing);
      }
      if ending.Changed? {
        ending := Changed([]);
      }
    }

    method ApplyDelete(caller: Caller, now: Time, a: Action) returns (ending: Ending)
      requires a.body.DeleteSession? && !store.aborted
      modifies store
      ensures store.saved == old(store.saved) && store.nextId >= old(store.nextId)
      ensures !ending.Error? ==> !store.aborted
      ensures EndsAs(ApplyDeleteSession(store.env, caller, now, old(store.State()), a), ending, store.State())
    {
      var target := LoadSession(store.rows, a);
      if target.TargetError? {
        return Error;
      }
      if target.TargetConflict? {
        return Conflict(target.reason);
      }
      if !a.body.decodes {
        return Error;
      }
      var row := target.row;
      ending := SaveRecord(Delete, a.sessionId, FromRow(store.env, a.sessionId, row), now, Some(row));
      if !ending.Changed? {
        return;
      }
      var saved := ending.records[0];
      ending := DeleteRows(now, AttendanceRecords, SessionRecordIds(store.rows, a.sessionId));
      if !ending.Changed? {
        return;
      }
      var deleted := ending.records;
      ending := DeleteRows(now, StudentMessages, SessionMessageIds(store.rows, a.sessionId));
      if !ending.Changed? {
        return;
      }
      WriteAudit(caller, a, a.clubId, Some(row), saved);
      ending := Changed([saved] + deleted);
    }

    /** Tombstones for the listed rows of one table. */
    method DeleteRows(now: Time, entity: EntityName, ids: set<string>) returns (ending: Ending)
      requires !store.aborted
      modifies store
      ensures store.saved == old(store.saved) && store.nextId >= old(store.nextId)
      ensures !ending.Error? ==> !store.aborted
      ensures EndsAs(DeleteListed(store.env, now, old(store.State()), entity, ids), ending, store.State())
    {
      var order := store.env.listing(ids);
      if exists id | id in order :: Key(entity, id) !in store.rows {
        return Error;
      }
      ending := CanonicalizeList(Delete, ReadBack(store.env, store.rows, entity, order), now);
      if ending.Changed? {
        var ok := store.UpsertBatch(ending.records, now);
        if !ok {
          ending := Error;
        }
      }
    }

    /** applyAttendanceAction */
    method Apply(caller: Caller, now: Time, a: Action) returns (ending: Ending)
      requires ValidEnv(store.env) && !store.aborted
      modifies store
      ensures store.saved == old(store.saved) && store.nextId >= old(store.nextId)
      ensures !ending.Error? ==> !store.aborted
      ensures EndsAs(ApplyAction(store.env, caller, now, old(store.State()), a), ending, store.State())
    {
      match a.body
      case CreateSession(content) =>
        if content.None? {
          return Error;
        }
        ending := ApplyCreate(caller, now, a, content.value.0, content.value.1);
      case SetRecordStatus(_) => ending := ApplyRecordStatus(caller, now, a);
      case MarkAllPresent(_) => ending := ApplyAllPresent(now, a);
      case SetRecordNote(_) => ending := ApplyRecordNote(caller, now, a);
      case SetSessionNote(_) => ending := ApplySession(caller, now, a);
      case SetSessionStatus(_) => ending := ApplySession(caller, now, a);
      case DeleteSession(_) => ending := ApplyDelete(caller, now, a);
      case OtherAction => return Error;
    }

    /** One action of a request: a conflict is reported and the loop goes on, with no savepoint to return to. */
    method PushAction(caller: Caller, device: string, now: Time, a: Action) returns (ok: bool, outcome: ActionOutcome)
      requires ValidEnv(store.env) && !store.aborted
      modifies store
      ensures store.saved == old(store.saved) && store.nextId >= old(store.nextId)
      ensures var round := ActionOne(store.env, caller, device, now, old(store.State()), a);
        ok == round.Round? && (ok ==> round == Round(store.State(), outcome) && !store.aborted)
    {
      hide ApplyAction;
      outcome := DoneBefore;
      if !WellFormedAction(store.env, a) {
        return false, outcome;
      }
      var found;
      ok, found := store.IsMutationProcessed(device, a.actionId);
      if found {
        return;
      }
      var decision := Decide(caller.permissions(a.clubId), AttendanceWrite);
      if decision.AuthorizerError? {
        return false, outcome;
      }
      if decision.Denied? {
        return true, Refused(NoPermission);
      }
      var ending := Apply(caller, now, a);
      if ending.Error? {
        return false, outcome;
      }
      if ending.Conflict? {
        return true, Refused(ending.reason);
      }
      ok := store.SaveProcessedMutation(device, a.actionId);
      outcome := Done(ending.records);
    }

    /** PushAttendanceActions: one transaction for the whole request. */
    method PushActions(caller: Caller, device: string, now: Time, actions: seq<Action>)
      returns (ok: bool, outcomes: seq<ActionOutcome>)
      requires ValidEnv(store.env)
      modifies store
      ensures var result := ActionsAll(store.env, caller, device, now, old(store.State()), actions);
        && ok == (caller.userId != "" && device != "" && result.ActionsPushed?)
        && (ok ==> result == ActionsPushed(store.State(), outcomes))
      ensures !ok ==>
        && store.nextId >= old(store.nextId)
        && store.State() == old(store.State()).(core := old(store.State()).core.(nextId := store.nextId))
    {
      hide ActionOne;
      outcomes := [];
      if caller.userId == "" || device == "" {
        return false, [];
      }
      store.Begin();
      ghost var start := store.State();
      for i := 0 to |actions|
        invariant !store.aborted && store.saved == start && store.nextId >= old(store.nextId)
        invariant ActionsAll(store.env, caller, device, now, start, actions[..i])
          == ActionsPushed(store.State(), outcomes)
      {
        assert actions[..i + 1][..i] == actions[..i];
        var outcome;
        ok, outcome := PushAction(caller, device, now, actions[i]);
        if !ok {
          store.Rollback();
          ActionsFailEarly(store.env, caller, device, now, start, actions, i + 1);
          return false, [];
        }
        outcomes := outcomes + [outcome];
      }
      assert actions[..|actions|] == actions;
      ok := store.Commit();
    }
  }

  ghost function Seen(order: seq<string>): set<string> {
    set id | id in order
  }

  lemma NothingPresent(env: Env, rows: Rows, order: seq<string>, wanted: set<string>, checkInAt: Option<string>)
    ensures PresentDocs(env, rows, Keep(order[..0], wanted), checkInAt) == []
    ensures Seen(order[..0]) == {}
  {
  }

  /** One more record of the session. */
  lemma OnePresent(env: Env, rows: Rows, order: seq<string>, i: nat, wanted: set<string>, checkInAt: Option<string>)
    requires i < |order| && Key(AttendanceRecords, order[i]) in rows
    ensures var doc := FromRow(env, order[i], rows[Key(AttendanceRecords, order[i])]);
      PresentDocs(env, rows, Keep(order[..i + 1], wanted), checkInAt) ==
        PresentDocs(env, rows, Keep(order[..i], wanted), checkInAt) +
          if order[i] in wanted then [doc.(body := MarkFields(doc.body, "present", checkInAt))] else []
    ensures Seen(order[..i + 1]) == Seen(order[..i]) + {order[i]}
  {
    hide FromRow, MarkFields;
    assert order[..i + 1][..i] == order[..i];
    var kept := Keep(order[..i], wanted);
    if order[i] in wanted {
      assert (kept + [order[i]])[..|kept|] == kept;
    } else {
      assert kept + [] == kept;
    }
  }

  lemma DifferenceEmpty(a: set<string>, b: set<string>)
    ensures a - b == {} <==> a <= b
  {
    assert a <= b <== a - b == {} by {
      forall x | x in a && a - b == {}
        ensures x in b
      {
        assert x in a - b || x in b;
      }
    }
  }

  /** Whatever follows the first payload that is not canonical, the list ends the same way. */
  lemma {:induction false} FirstFailureDecides(env: Env, rows: Rows, operation: Operation, docs: seq<Record>, n: nat,
                                               now: Time)
    requires n <= |docs| && !CanonicalizeAll(env, rows, operation, docs[..n], now).AllCanonical?
    ensures CanonicalizeAll(env, rows, operation, docs, now) == CanonicalizeAll(env, rows, operation, docs[..n], now)
  {
    hide Canonicalize;
    if n == |docs| {
      assert docs[..n] == docs;
    } else {
      var front := docs[..|docs| - 1];
      assert front[..n] == docs[..n];
      FirstFailureDecides(env, rows, operation, front, n, now);
    }
  }

  /** A request fails as soon as a prefix of it fails. */
  lemma {:induction false} ActionsFailEarly(env: Env, caller: Caller, device: string, now: Time, db: Db,
                                            actions: seq<Action>, n: nat)
    requires n <= |actions| && ActionsAll(env, caller, device, now, db, actions[..n]).ActionsFailed?
    ensures ActionsAll(env, caller, device, now, db, actions).ActionsFailed?
  {
    hide ActionOne;
    if n == |actions| {
      assert actions[..n] == actions;
    } else {
      var front := actions[..|actions| - 1];
      assert front[..n] == actions[..n];
      ActionsFailEarly(env, caller, device, now, db, front, n);
    }
  }
}
