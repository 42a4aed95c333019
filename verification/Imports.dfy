/** The spreadsheet imports, from parsed rows on: what each row does to the database. */
module ImportSpec {
  import opened Text
  import opened Records
  import opened Tables
  import opened Lookups
  import opened Authorization
  import opened Canonical
  import opened PushSpec
  import opened ScheduleSpec

  /** The record an import writes: the creation time of the row it replaces, the server's time otherwise. */
  function ImportStamp(env: Env, id: string, existing: Option<Row>, body: Fields, now: Time): Record {
    var t := env.formatTime(now);
    Record(id, if existing.Some? then env.formatTime(existing.value.createdAt) else t, t, t, "synced", None, body)
  }

  function ImportAudit(caller: Caller, entity: EntityName): AuditRow {
    AuditRow(caller.userId, None, entity, None, "import", None, None, "")
  }

  // ----- clubs ------------------------------------------------------------------

  datatype ClubRow = ClubRow(slug: string, name: string, phone: Option<string>, email: Option<string>,
                             address: Option<string>, notes: Option<string>, isActive: bool)

  /** normalizeClubID, given the slug of the name. */
  function ClubId(row: ClubRow): (id: string)
    ensures id != ""
  {
    if row.slug == "" then "club" else row.slug
  }

  /** The codes of the other live clubs. */
  function TakenCodes(rows: Rows, exclude: string): set<string> {
    set k | k in rows && k.entity == Clubs && k.id != exclude && rows[k].deletedAt.None? && rows[k].body.Club?
            && rows[k].body.code.Some? :: rows[k].body.code.value
  }

  /** base, base2, base3, ... */
  function Candidate(base: string, k: nat): string {
    if k == 0 then base else base + Decimal(k + 1)
  }

  /** The first candidate from k on that is not taken; a taken candidate is tried only once. */
  function FirstUnused(taken: set<string>, base: string, k: nat): string
    decreases |taken|
  {
    var c := Candidate(base, k);
    if c in taken then FirstUnused(taken - {c}, base, k + 1) else c
  }

  function ClubCode(rows: Rows, base: string, exclude: string): string {
    FirstUnused(TakenCodes(rows, exclude), base, 0)
  }

  function ClubImport(env: Env, rows: Rows, base: string, row: ClubRow, now: Time): Record {
    ImportStamp(env, ClubId(row), Lookup(rows, Clubs, ClubId(row)),
                Club(Some(ClubCode(rows, base, ClubId(row))), row.name, row.phone, row.email, row.address, row.notes,
                     row.isActive), now)
  }

  function ImportAllClubs(env: Env, generate: string -> string, core: Core, rows: seq<ClubRow>,
                          now: Time): Option<Core> {
    if rows == [] then Some(core)
    else
      var n := |rows| - 1;
      var before :- ImportAllClubs(env, generate, core, rows[..n], now);
      Write(env, before, ClubImport(env, before.rows, generate(rows[n].name), rows[n], now), now)
  }

  // ----- belt ranks -------------------------------------------------------------

  datatype BeltRow = BeltRow(slug: string, name: string, order: int, description: Option<string>, isActive: bool)

  function BeltId(row: BeltRow): string {
    if row.slug == "" then "belt-rank" else row.slug
  }

  function BeltImport(env: Env, rows: Rows, row: BeltRow, now: Time): Record {
    ImportStamp(env, BeltId(row), Lookup(rows, BeltRanks, BeltId(row)),
                BeltRank(row.name, row.order, row.description, row.isActive), now)
  }

  datatype BeltStep = OrderTaken | NotSent | NotStored | BeltImported(core: Core)

  function ImportBelt(env: Env, core: Core, row: BeltRow, now: Time): BeltStep {
    if BeltOrderTaken(core.rows, row.order, BeltId(row)) then OrderTaken
    else if ToRow(env, BeltImport(env, core.rows, row, now)).None? then NotSent
    else
      match Write(env, core, BeltImport(env, core.rows, row, now), now)
      case None => NotStored
      case Some(after) => BeltImported(after)
  }

  datatype BeltsResult = BeltsFailed | BeltsDone(core: Core, imported: nat, reported: nat)

  function ImportAllBelts(env: Env, core: Core, rows: seq<BeltRow>, now: Time): BeltsResult {
    if rows == [] then BeltsDone(core, 0, 0)
    else
      match ImportAllBelts(env, core, rows[..|rows| - 1], now)
      case BeltsFailed => BeltsFailed
      case BeltsDone(before, imported, reported) =>
        match ImportBelt(env, before, rows[|rows| - 1], now)
        case NotStored => BeltsFailed
        case OrderTaken => BeltsDone(before, imported, reported + 1)
        case NotSent => BeltsDone(before, imported, reported + 1)
        case BeltImported(after) => BeltsDone(after, imported + 1, reported)
  }

  // ----- students ---------------------------------------------------------------

  datatype StudentRow = StudentRow(
    id: string, studentCode: Option<string>, fullName: string, dateOfBirth: Option<Date>, gender: Option<string>,
    phone: Option<string>, email: Option<string>, address: Option<string>, clubName: string, groupName: Option<string>,
    beltRankName: string, joinedAt: Option<Date>, status: string, notes: Option<string>, mode: string,
      days: seq<string>)

  /** One row of a query without a unique answer. */
  function AnyOf(env: Env, ids: set<string>): Option<string> {
    var order := env.listing(ids);
    if order == [] then None else Some(order[0])
  }

  function ClubsByCode(rows: Rows, code: string): set<string> {
    set k | k in rows && k.entity == Clubs && rows[k].deletedAt.None? && rows[k].body.Club?
      && rows[k].body.code == Some(code) :: k.id
  }

  function ClubsByName(env: Env, rows: Rows, name: string): set<string> {
    set k | k in rows && k.entity == Clubs && rows[k].deletedAt.None? && rows[k].body.Club?
            && env.normalize(rows[k].body.name) == env.normalize(name) :: k.id
  }

  function GroupsByName(env: Env, rows: Rows, clubId: string, name: string): set<string> {
    set k | k in rows && k.entity == ClubGroups && rows[k].deletedAt.None? && rows[k].body.ClubGroup?
            && rows[k].body.clubId == clubId && env.normalize(rows[k].body.name) == env.normalize(name) :: k.id
  }

  function BeltsByName(env: Env, rows: Rows, name: string): set<string> {
    set k | k in rows && k.entity == BeltRanks && rows[k].deletedAt.None? && rows[k].body.BeltRank?
            && env.normalize(rows[k].body.name) == env.normalize(name) :: k.id
  }

  function StudentsByCode(rows: Rows, code: string): set<string> {
    set k | k in rows && k.entity == Students && rows[k].deletedAt.None? && rows[k].body.Student?
            && rows[k].body.studentCode == Some(code) :: k.id
  }

  /** Clubs are looked up by code, then by name. */
  function FindClub(env: Env, rows: Rows, name: string): Option<string> {
    var byCode := AnyOf(env, ClubsByCode(rows, name));
    if byCode.Some? then byCode else AnyOf(env, ClubsByName(env, rows, name))
  }

  /** ListClubScheduleWeekdays */
  function ActiveClubDays(rows: Rows, clubId: string): set<string> {
    set k | k in rows && rows[k].deletedAt.None? && rows[k].body.ClubSchedule? && rows[k].body.clubId == clubId
            && rows[k].body.isActive :: rows[k].body.weekday
  }

  datatype Placement = PlacementError | NotPlaced | Placed(clubId: string, groupId: Option<string>, beltRankId: string)

  /** The club, group and belt rank a row names, and the permission to import into that club. */
  function Place(env: Env, caller: Caller, rows: Rows, row: StudentRow): Placement {
    match FindClub(env, rows, row.clubName)
    case None => NotPlaced
    case Some(clubId) =>
      var decision := if caller.sysAdmin then Granted else Decide(caller.permissions(clubId), ImportsManage);
      if decision.AuthorizerError? then PlacementError
      else if decision.Denied? then NotPlaced
      else
        var groupId := if Blank(row.groupName) then None
          else AnyOf(env, GroupsByName(env, rows, clubId, row.groupName.value));
        if !Blank(row.groupName) && groupId.None? then NotPlaced
        else
          match AnyOf(env, BeltsByName(env, rows, row.beltRankName))
          case None => NotPlaced
          case Some(beltRankId) => Placed(clubId, groupId, beltRankId)
  }

  /** The id under which the student is written: that of the live student with the row's code, if there is one. */
  function StudentRecordId(env: Env, rows: Rows, row: StudentRow): string {
    if Blank(row.studentCode) then row.id
    else
      match AnyOf(env, StudentsByCode(rows, row.studentCode.value))
      case None => row.id
      case Some(id) => id
  }

  function NextCounter(db: Db, row: StudentRow): nat {
    if Blank(row.studentCode) then db.counter + 1 else db.counter
  }

  function StudentImport(env: Env, db: Db, row: StudentRow, place: Placement, now: Time): Record
    requires place.Placed?
  {
    var id := StudentRecordId(env, db.core.rows, row);
    var existing := if id == row.id then None else Lookup(db.core.rows, Students, id);
    var code := if Blank(row.studentCode) then Some(StudentCode(NextCounter(db, row))) else row.studentCode;
    ImportStamp(env, id, existing,
                Student(code, row.fullName, FormatOptional(env.formatDate, row.dateOfBirth), row.gender, row.phone,
                        row.email, row.address,
                        place.clubId, place.groupId, place.beltRankId, FormatOptional(env.formatDate, row.joinedAt),
                          row.status, row.notes), now)
  }

  /** A custom schedule with a day outside the club's schedule. */
  predicate OutsideClub(rows: Rows, row: StudentRow, clubId: string) {
    row.mode == "custom" && exists d | d in row.days :: d !in ActiveClubDays(rows, clubId)
  }

  /** A row fails the whole import, is reported, or is imported. */
  datatype StudentStep = ImportFails | RowReported(db: Db) | RowImported(db: Db)

  function ImportStudent(env: Env, caller: Caller, db: Db, row: StudentRow, now: Time): StudentStep
    requires ValidEnv(env)
  {
    match Place(env, caller, db.core.rows, row)
    case PlacementError => ImportFails
    case NotPlaced => RowReported(db)
    case Placed(clubId, groupId, beltRankId) =>
      match Write(env, db.core, StudentImport(env, db, row, Placed(clubId, groupId, beltRankId), now), now)
      case None => ImportFails
      case Some(core) =>
        var written := db.(core := core, counter := NextCounter(db, row));
        if OutsideClub(core.rows, row, clubId) then RowReported(written)
        else
          match ReplaceSchedule(env, core, StudentRecordId(env, db.core.rows, row), row.mode, row.days, now)
          case None => ImportFails
          case Some(after) => RowImported(written.(core := after))
  }

  datatype StudentsResult = StudentsFailed | StudentsDone(db: Db, imported: nat, reported: nat)

  function ImportAllStudents(env: Env, caller: Caller, db: Db, rows: seq<StudentRow>, now: Time): StudentsResult
    requires ValidEnv(env)
  {
    if rows == [] then StudentsDone(db, 0, 0)
    else
      match ImportAllStudents(env, caller, db, rows[..|rows| - 1], now)
      case StudentsFailed => StudentsFailed
      case StudentsDone(before, imported, reported) =>
        match ImportStudent(env, caller, before, rows[|rows| - 1], now)
        case ImportFails => StudentsFailed
        case RowReported(after) => StudentsDone(after, imported, reported + 1)
        case RowImported(after) => StudentsDone(after, imported + 1, reported)
  }

  // ----- schedule days ------------------------------------------------------------

  /** The weekday a trimmed, lower-case cell entry names. */
  function DayNamed(text: string): Option<string> {
    if text in {"mon", "monday", "thu2", "t2"} then Some("mon")
    else if text in {"tue", "tuesday", "thu3", "t3"} then Some("tue")
    else if text in {"wed", "wednesday", "thu4", "t4"} then Some("wed")
    else if text in {"thu", "thursday", "thu5", "t5"} then Some("thu")
    else if text in {"fri", "friday", "thu6", "t6"} then Some("fri")
    else if text in {"sat", "saturday", "thu7", "t7"} then Some("sat")
    else if text in {"sun", "sunday", "cn", "chu nhat"} then Some("sun")
    else None
  }
}

module ImportProofs {
  import opened Text
  import opened Records
  import opened Tables
  import opened Lookups
  import opened History
  import opened Authorization
  import opened Canonical
  import opened PushSpec
  import opened ScheduleSpec
  import opened ScheduleProofs
  import opened Sample
  import opened ImportSpec

  // ----- the code search ----------------------------------------------------------

  lemma CandidatesDiffer(base: string, j: nat, k: nat)
    requires j != k
    ensures Candidate(base, j) != Candidate(base, k)
  {
    DecimalRoundTrip(j + 1);
    DecimalRoundTrip(k + 1);
    if j > 0 && k > 0 {
      assert Candidate(base, j)[|base|..] == Decimal(j + 1);
      assert Candidate(base, k)[|base|..] == Decimal(k + 1);
    }
  }

  /** The search stops at the first candidate that is not taken. */
  lemma {:induction false} FirstUnusedFinds(taken: set<string>, base: string, k: nat) returns (n: nat)
    ensures n >= k && FirstUnused(taken, base, k) == Candidate(base, n) && Candidate(base, n) !in taken
    ensures forall j | k <= j < n :: Candidate(base, j) in taken
    decreases |taken|
  {
    var c := Candidate(base, k);
    if c in taken {
      n := FirstUnusedFinds(taken - {c}, base, k + 1);
      CandidatesDiffer(base, n, k);
      forall j | k <= j < n
        ensures Candidate(base, j) in taken
      {
        assert j > k ==> Candidate(base, j) in taken - {c};
      }
    } else {
      n := k;
    }
  }

  lemma TakenMeansTaken(rows: Rows, code: string, exclude: string)
    ensures code in TakenCodes(rows, exclude) <==> ClubCodeTaken(rows, code, exclude)
  {
  }

  // ----- clubs ----------------------------------------------------------------------

  /** A club import always goes through: its code is free, and nothing else can refuse it. */
  lemma ClubImportSucceeds(env: Env, core: Core, base: string, row: ClubRow, now: Time)
    requires ValidEnv(env) && Tagged(core.rows)
    ensures var rec := ClubImport(env, core.rows, base, row, now);
      && Write(env, core, rec, now).Some?
      && Vetted(env, core.rows, rec, now, true)
      && !ClubCodeTaken(core.rows, rec.body.code.value, rec.id)
  {
    var rec := ClubImport(env, core.rows, base, row, now);
    var n := FirstUnusedFinds(TakenCodes(core.rows, rec.id), base, 0);
    var code := rec.body.code.value;
    TakenMeansTaken(core.rows, code, rec.id);
    ImportStampStored(env, ClubId(row), Lookup(core.rows, Clubs, ClubId(row)), rec.body, now);
    hide TakenCodes, FirstUnused, ImportStamp, ClubCode;
    var stored := ToRow(env, rec).value;
    assert KeyOf(rec) == Key(Clubs, ClubId(row));
    forall k | k in core.rows && k != KeyOf(rec) && k.entity == Clubs
      ensures !Collides(stored, core.rows[k])
    {
      assert EntityOf(core.rows[k].body) == Clubs;
    }
  }

  /** The text times of an import are stored as they were formatted. */
  lemma ImportStampStored(env: Env, id: string, existing: Option<Row>, body: Fields, now: Time)
    requires ValidEnv(env)
    ensures var rec := ImportStamp(env, id, existing, body, now);
      && rec.id == id && rec.body == body && rec.deletedAt.None?
      && (ToRow(env, rec).Some? <==> ToColumns(env, body).Some?)
      && (ToColumns(env, body).Some? ==>
            ToRow(env, rec)
              == Some(Row(if existing.Some? then existing.value.createdAt else now, now, now, None,
                          ToColumns(env, body).value)))
  {
    hide ToColumns;
    assert env.parseTime(env.formatTime(now)) == Some(now);
    if existing.Some? {
      assert env.parseTime(env.formatTime(existing.value.createdAt)) == Some(existing.value.createdAt);
    }
  }

  // ----- belt ranks -----------------------------------------------------------------

  /** No belt rank of an import ever fails in the database: it is reported as taken, or cannot be sent because its order
      does not fit the column, or is imported. */
  lemma BeltImportOutcome(env: Env, core: Core, row: BeltRow, now: Time)
    requires ValidEnv(env) && Tagged(core.rows)
    ensures match ImportBelt(env, core, row, now)
      case OrderTaken => BeltOrderTaken(core.rows, row.order, BeltId(row))
      case NotSent => !(-INT32_MAX - 1 <= row.order <= INT32_MAX)
      case NotStored => false
      case BeltImported(after) =>
        && Write(env, core, BeltImport(env, core.rows, row, now), now) == Some(after)
        && Vetted(env, core.rows, BeltImport(env, core.rows, row, now), now, true)
  {
    var rec := BeltImport(env, core.rows, row, now);
    ImportStampStored(env, BeltId(row), Lookup(core.rows, BeltRanks, BeltId(row)), rec.body, now);
    if ToRow(env, rec).Some? && !BeltOrderTaken(core.rows, row.order, BeltId(row)) {
      var stored := ToRow(env, rec).value;
      hide ToRow, ImportStamp;
      forall k | k in core.rows && k != KeyOf(rec) && k.entity == BeltRanks
        ensures !Collides(stored, core.rows[k])
      {
        assert EntityOf(core.rows[k].body) == BeltRanks;
      }
    }
  }

  // ----- students -------------------------------------------------------------------

  lemma AnyOfIsMember(env: Env, ids: set<string>)
    requires ValidEnv(env) && AnyOf(env, ids).Some?
    ensures AnyOf(env, ids).value in ids
  {
    assert Lists(env.listing(ids), ids);
    assert env.listing(ids)[0] in env.listing(ids);
  }

  /** The state a student import starts from or continues in. */
  ghost predicate ReadyStore(core: Core, env: Env, now: Time) {
    ValidEnv(env) && Invariant(env, core) && NotAfter(core, now)
  }

  lemma ReadyParts(core: Core, env: Env, now: Time)
    requires ReadyStore(core, env, now)
    ensures ValidEnv(env) && Tagged(core.rows) && Named(core.rows)
  {
  }

  lemma EvolvesKeepsReady(env: Env, before: Core, after: Core, now: Time, orderly: bool)
    requires ReadyStore(before, env, now) && Evolves(env, before, after, now, orderly)
    ensures ReadyStore(after, env, now)
  {
    hide Invariant, NotAfter, ValidEnv, Evolves;
    EvolvesKeepsInvariant(env, before, after, now, orderly);
  }

  /** A club import always succeeds, imports every row, and is one transaction of vetted writes. */
  lemma {:induction false} ClubImportEvolves(env: Env, generate: string -> string, core: Core, rows: seq<ClubRow>,
                                             now: Time)
    requires ReadyStore(core, env, now)
    ensures ImportAllClubs(env, generate, core, rows, now).Some?
    ensures var after := ImportAllClubs(env, generate, core, rows, now).value;
      ReadyStore(after, env, now) && Evolves(env, core, after, now, true) && |after.log| == |core.log| + |rows|
  {
    hide ReadyStore, Evolves, Write, Vetted, ClubImport, ClubCodeTaken;
    if rows == [] {
      EvolvesNothing(env, core, now, true);
    } else {
      var n := |rows| - 1;
      ClubImportEvolves(env, generate, core, rows[..n], now);
      var before := ImportAllClubs(env, generate, core, rows[..n], now).value;
      ReadyParts(before, env, now);
      ClubImportSucceeds(env, before, generate(rows[n].name), rows[n], now);
      var rec := ClubImport(env, before.rows, generate(rows[n].name), rows[n], now);
      WriteLogsOne(env, before, rec, now);
      EvolvesWrite(env, before, rec, now, true);
      EvolvesTogether(env, core, before, Write(env, before, rec, now).value, now, true);
      EvolvesKeepsReady(env, before, Write(env, before, rec, now).value, now, true);
    }
  }

  /** A belt rank import always succeeds as a whole: each row is imported or reported, the change log grows by the
      imported ones, and it is one transaction of vetted writes. */
  lemma {:induction false} BeltImportEvolves(env: Env, core: Core, rows: seq<BeltRow>, now: Time)
    requires ReadyStore(core, env, now)
    ensures ImportAllBelts(env, core, rows, now).BeltsDone?
    ensures var BeltsDone(after, imported, reported) := ImportAllBelts(env, core, rows, now);
      && imported + reported == |rows| && |after.log| == |core.log| + imported
      && ReadyStore(after, env, now) && Evolves(env, core, after, now, true)
  {
    hide ReadyStore, Evolves, Write, Vetted, BeltImport, BeltOrderTaken, ImportBelt;
    if rows == [] {
      EvolvesNothing(env, core, now, true);
    } else {
      var n := |rows| - 1;
      BeltImportEvolves(env, core, rows[..n], now);
      var before := ImportAllBelts(env, core, rows[..n], now).core;
      ReadyParts(before, env, now);
      BeltImportOutcome(env, before, rows[n], now);
      var step := ImportBelt(env, before, rows[n], now);
      if step.BeltImported? {
        var rec := BeltImport(env, before.rows, rows[n], now);
        WriteLogsOne(env, before, rec, now);
        EvolvesWrite(env, before, rec, now, true);
        EvolvesTogether(env, core, before, step.core, now, true);
        EvolvesKeepsReady(env, before, step.core, now, true);
      }
    }
  }

  lemma WriteLogsOne(env: Env, core: Core, rec: Record, now: Time)
    requires Write(env, core, rec, now).Some?
    ensures |Write(env, core, rec, now).value.log| == |core.log| + 1
  {
    hide ToRow, ForeignKeysHold, FitsIndexes;
  }

  lemma StudentIdNotEmpty(env: Env, rows: Rows, row: StudentRow)
    requires ValidEnv(env) && Named(rows) && row.id != ""
    ensures StudentRecordId(env, rows, row) != ""
  {
    if !Blank(row.studentCode) && AnyOf(env, StudentsByCode(rows, row.studentCode.value)).Some? {
      AnyOfIsMember(env, StudentsByCode(rows, row.studentCode.value));
    }
  }

  /** One row: what is imported or reported is a vetted step, and no failed write is ever swallowed. */
  lemma StudentRowEvolves(env: Env, caller: Caller, db: Db, row: StudentRow, now: Time)
    requires ReadyStore(db.core, env, now) && row.id != ""
    ensures ValidEnv(env)
    ensures var step := ImportStudent(env, caller, db, row, now);
      !step.ImportFails? ==> Evolves(env, db.core, step.db.core, now, true)
  {
    ReadyParts(db.core, env, now);
    StudentIdNotEmpty(env, db.core.rows, row);
    EvolvesNothing(env, db.core, now, true);
    hide Evolves, Write, Invariant, ValidEnv, ReplaceSchedule, Place, StudentRecordId, StudentCode, OutsideClub;
    var place := Place(env, caller, db.core.rows, row);
    if place.Placed? {
      var rec := StudentImport(env, db, row, place, now);
      if Write(env, db.core, rec, now).Some? {
        EvolvesWrite(env, db.core, rec, now, true);
        var core := Write(env, db.core, rec, now).value;
        var id := StudentRecordId(env, db.core.rows, row);
        if ReplaceSchedule(env, core, id, row.mode, row.days, now).Some? {
          ReplacementEvolves(env, core, id, row.mode, row.days, now, true);
          EvolvesTogether(env, db.core, core, ReplaceSchedule(env, core, id, row.mode, row.days, now).value, now, true);
        }
      }
    }
    hide StudentImport;
  }

  /** A student import is one transaction of vetted writes, and every row ends imported or reported. */
  lemma {:induction false} StudentImportEvolves(env: Env, caller: Caller, db: Db, rows: seq<StudentRow>, now: Time)
    requires ReadyStore(db.core, env, now) && forall row | row in rows :: row.id != ""
    ensures ValidEnv(env)
    ensures var result := ImportAllStudents(env, caller, db, rows, now);
      result.StudentsDone? ==>
        && Evolves(env, db.core, result.db.core, now, true)
        && ReadyStore(result.db.core, env, now)
        && result.imported + result.reported == |rows|
        && result.db.processed == db.processed && result.db.audit == db.audit
        && db.counter <= result.db.counter <= db.counter + |rows|
  {
    ReadyParts(db.core, env, now);
    hide Evolves, ReadyStore, ImportStudent, ValidEnv;
    if rows == [] {
      EvolvesNothing(env, db.core, now, true);
    } else {
      var n := |rows| - 1;
      StudentImportEvolves(env, caller, db, rows[..n], now);
      var front := ImportAllStudents(env, caller, db, rows[..n], now);
      if front.StudentsDone? {
        assert rows[n] in rows;
        StudentRowEvolves(env, caller, front.db, rows[n], now);
        StudentRowKeepsRest(env, caller, front.db, rows[n], now);
        var step := ImportStudent(env, caller, front.db, rows[n], now);
        if !step.ImportFails? {
          EvolvesTogether(env, db.core, front.db.core, step.db.core, now, true);
          EvolvesKeepsReady(env, front.db.core, step.db.core, now, true);
        }
      }
    }
  }

  lemma StudentRowKeepsRest(env: Env, caller: Caller, db: Db, row: StudentRow, now: Time)
    requires ValidEnv(env)
    ensures var step := ImportStudent(env, caller, db, row, now);
      !step.ImportFails? ==>
        step.db.processed == db.processed && step.db.audit == db.audit
          && db.counter <= step.db.counter <= db.counter + 1
  {
    hide Write, ReplaceSchedule, Place, StudentImport, StudentRecordId;
  }

  /** No other stored student, deleted or not, has the code. */
  ghost predicate CodeUnused(rows: Rows, id: string, code: Option<string>) {
    forall k | k in rows && k.entity == Students && k.id != id ::
      !(rows[k].body.Student? && rows[k].body.studentCode == code)
  }

  /** The code a row's student is written with. */
  function ImportCode(db: Db, row: StudentRow): Option<string> {
    if Blank(row.studentCode) then Some(StudentCode(NextCounter(db, row))) else row.studentCode
  }

  /** The club, group and rank found for a row are stored. */
  lemma PlacedIsStored(env: Env, caller: Caller, rows: Rows, row: StudentRow)
    requires ValidEnv(env) && Place(env, caller, rows, row).Placed?
    ensures var place := Place(env, caller, rows, row);
      && Stored(rows, Clubs, place.clubId) && Stored(rows, BeltRanks, place.beltRankId)
      && OptionalReference(rows, ClubGroups, place.groupId)
  {
    var place := Place(env, caller, rows, row);
    FoundClub(env, rows, row.clubName);
    AnyOfIsMember(env, BeltsByName(env, rows, row.beltRankName));
    if !Blank(row.groupName) {
      AnyOfIsMember(env, GroupsByName(env, rows, place.clubId, row.groupName.value));
    }
    hide FindClub, AnyOf;
  }

  lemma FoundClub(env: Env, rows: Rows, name: string)
    requires ValidEnv(env) && FindClub(env, rows, name).Some?
    ensures Stored(rows, Clubs, FindClub(env, rows, name).value)
  {
    if AnyOf(env, ClubsByCode(rows, name)).Some? {
      AnyOfIsMember(env, ClubsByCode(rows, name));
    } else {
      AnyOfIsMember(env, ClubsByName(env, rows, name));
    }
    hide AnyOf;
  }

  /** The only thing that can stop a placed student in the database is its code. */
  lemma StudentWriteOutcome(env: Env, caller: Caller, db: Db, row: StudentRow, now: Time)
    requires ValidEnv(env) && Tagged(db.core.rows) && Place(env, caller, db.core.rows, row).Placed?
    ensures var rec := StudentImport(env, db, row, Place(env, caller, db.core.rows, row), now);
      && rec.body.Student? && rec.id == StudentRecordId(env, db.core.rows, row)
      && (Write(env, db.core, rec, now).Some? <==> CodeUnused(db.core.rows, rec.id, ImportCode(db, row)))
  {
    var place := Place(env, caller, db.core.rows, row);
    var rec := StudentImport(env, db, row, place, now);
    PlacedIsStored(env, caller, db.core.rows, row);
    StudentStored(env, db, row, place, now);
    hide Place, StudentImport, ToRow, StudentCode, StudentRecordId, ValidEnv;
    var stored := ToRow(env, rec).value;
    CodeDecides(db.core.rows, rec.id, stored);
    hide CodeUnused, FitsIndexes;
  }

  lemma StudentStored(env: Env, db: Db, row: StudentRow, place: Placement, now: Time)
    requires ValidEnv(env) && place.Placed?
    ensures var rec := StudentImport(env, db, row, place, now);
      && rec.body.Student? && rec.id == StudentRecordId(env, db.core.rows, row)
      && ToRow(env, rec).Some?
      && (var body := ToRow(env, rec).value.body;
          && body.Student? && body.studentCode == ImportCode(db, row) && body.studentCode.Some?
          && body.clubId == place.clubId && body.groupId == place.groupId && body.beltRankId == place.beltRankId)
  {
    var rec := StudentImport(env, db, row, place, now);
    var id := StudentRecordId(env, db.core.rows, row);
    OptionalDateRoundTrip(env, row.dateOfBirth);
    OptionalDateRoundTrip(env, row.joinedAt);
    ImportStampStored(env, id, if id == row.id then None else Lookup(db.core.rows, Students, id), rec.body, now);
    hide ToRow, StudentCode, StudentRecordId;
  }

  lemma CodeDecides(rows: Rows, id: string, stored: Row)
    requires Tagged(rows) && stored.body.Student? && stored.body.studentCode.Some?
    ensures FitsIndexes(rows, Key(Students, id), stored) <==> CodeUnused(rows, id, stored.body.studentCode)
  {
    if FitsIndexes(rows, Key(Students, id), stored) {
      forall k | k in rows && k.entity == Students && k.id != id
        ensures !(rows[k].body.Student? && rows[k].body.studentCode == stored.body.studentCode)
      {
        assert !Collides(stored, rows[k]);
      }
    }
    if CodeUnused(rows, id, stored.body.studentCode) {
      forall k | k in rows && k != Key(Students, id) && k.entity == Students
        ensures !Collides(stored, rows[k])
      {
        assert k.id != id;
      }
    }
  }

  /** What becomes of a row, by what holds before it: not placed, it is reported without a trace; placed, it ends the
      whole import if another student has its code; with a custom schedule that leaves the club's it is reported
      although its student has been written, with one log row; otherwise it is imported, unless its schedule cannot be
      replaced. */
  lemma ImportRowOutcome(env: Env, caller: Caller, db: Db, row: StudentRow, now: Time)
    requires ValidEnv(env) && Tagged(db.core.rows)
    ensures var rows := db.core.rows;
      var step := ImportStudent(env, caller, db, row, now);
      match Place(env, caller, rows, row)
      case PlacementError => step == ImportFails
      case NotPlaced => step == RowReported(db)
      case Placed(clubId, groupId, beltRankId) =>
        var id := StudentRecordId(env, rows, row);
        var rec := StudentImport(env, db, row, Placed(clubId, groupId, beltRankId), now);
        if !CodeUnused(rows, id, ImportCode(db, row)) then step == ImportFails
        else if OutsideClub(rows, row, clubId) then
          && step.RowReported?
          && step.db == db.(core := step.db.core, counter := NextCounter(db, row))
          && Write(env, db.core, rec, now) == Some(step.db.core)
          && step.db.core.log == db.core.log + [LogRow(db.core.nextId, rec, now)]
          && Stored(step.db.core.rows, Students, id)
        else !step.RowReported?
  {
    hide Place, StudentImport, ReplaceSchedule, StudentRecordId, StudentCode, CodeUnused, ActiveClubDays, ValidEnv,
      Tagged, Write, OutsideClub, NextCounter, ImportCode;
    var place := Place(env, caller, db.core.rows, row);
    if place.Placed? {
      var rec := StudentImport(env, db, row, place, now);
      StudentWriteOutcome(env, caller, db, row, now);
      if Write(env, db.core, rec, now).Some? {
        WriteKeepsClubDays(env, db.core, rec, now, place.clubId);
        SameOutside(db.core.rows, Write(env, db.core, rec, now).value.rows, row, place.clubId);
        WriteLogsRecord(env, db.core, rec, now);
      }
    }
  }

  lemma SameOutside(before: Rows, after: Rows, row: StudentRow, clubId: string)
    requires ActiveClubDays(after, clubId) == ActiveClubDays(before, clubId)
    ensures OutsideClub(after, row, clubId) <==> OutsideClub(before, row, clubId)
  {
    hide ActiveClubDays;
  }

  lemma WriteLogsRecord(env: Env, core: Core, rec: Record, now: Time)
    requires Write(env, core, rec, now).Some?
    ensures Write(env, core, rec, now).value.log == core.log + [LogRow(core.nextId, rec, now)]
  {
    hide ToRow, ForeignKeysHold, FitsIndexes;
  }

  /** The row of a new student who wants to train on a day its club does not. */
  function SampleRow(): StudentRow {
    StudentRow("n", None, "Binh", None, None, None, None, None, "Club", None, "Belt", None, "active", None, "custom",
               ["mon"])
  }

  /** A student is written and its row then reported: the sample club has no schedule at all. */
  lemma StudentKeptThoughReported(env: Env, caller: Caller, at: Time, now: Time) returns (db: Db)
    requires ValidEnv(env) && caller.sysAdmin
    ensures Reachable(env, db.core) && !Stored(db.core.rows, Students, "n")
    ensures var step := ImportStudent(env, caller, db, SampleRow(), now);
      step.RowReported? && Stored(step.db.core.rows, Students, "n") && |step.db.core.log| == |db.core.log| + 1
  {
    hide Reachable, Invariant, ImportStudent, Place, ActiveClubDays, CodeUnused, ValidEnv, Tagged, StudentCode;
    var core := SampleReachable(env, at, false);
    db := Db(core, {}, 0, []);
    SamplePlaced(env, caller, at);
    SampleOutside(at);
    SampleCodes(at);
    ImportRowOutcome(env, caller, db, SampleRow(), now);
  }

  lemma SampleOutside(at: Time)
    ensures OutsideClub(SampleRows(at, false), SampleRow(), "c") && !Stored(SampleRows(at, false), Students, "n")
  {
    assert "mon" in SampleRow().days;
    assert ActiveClubDays(SampleRows(at, false), "c") == {};
  }

  lemma SampleCodes(at: Time)
    ensures forall code: string :: CodeUnused(SampleRows(at, false), "n", Some(code))
  {
    var rows := SampleRows(at, false);
    assert forall k | k in rows && k.entity == Students :: k == STUDENT;
  }

  lemma SamplePlaced(env: Env, caller: Caller, at: Time)
    requires ValidEnv(env) && caller.sysAdmin
    ensures Place(env, caller, SampleRows(at, false), SampleRow()) == Placed("c", None, "b")
  {
    var rows := SampleRows(at, false);
    assert ClubsByCode(rows, "Club") == {};
    assert Key(Clubs, "c") in rows && Key(BeltRanks, "b") in rows;
    assert ClubsByName(env, rows, "Club") == {"c"};
    assert BeltsByName(env, rows, "Belt") == {"b"};
    hide ClubsByCode, ClubsByName, BeltsByName, SampleRows;
    ListingLists(env, {});
    ListingLists(env, {"c"});
    ListingLists(env, {"b"});
    OneListed(env.listing({"c"}), "c");
    OneListed(env.listing({"b"}), "b");
    NoneListed(env.listing({}));
  }

  lemma NoneListed(order: seq<string>)
    requires Lists(order, {})
    ensures order == []
  {
    if order != [] {
      FirstListed(order);
    }
  }

  lemma FirstListed(order: seq<string>)
    requires order != []
    ensures exists x :: x in order
  {
    assert order[0] in order;
  }

  /** Writing a student does not touch any schedule. */
  lemma WriteKeepsClubDays(env: Env, core: Core, rec: Record, now: Time, clubId: string)
    requires Write(env, core, rec, now).Some? && rec.body.Student? && Tagged(core.rows)
    ensures var after := Write(env, core, rec, now).value;
      && ActiveClubDays(after.rows, clubId) == ActiveClubDays(core.rows, clubId)
      && Tagged(after.rows) && Stored(after.rows, Students, rec.id)
      && (AllCanonical(core.rows) ==> AllCanonical(after.rows))
  {
    ToRowKeepsEntity(env, rec);
    hide ToRow, ForeignKeysHold, FitsIndexes, DayId;
    var after := Write(env, core, rec, now).value;
    assert forall k | k in after.rows && k != KeyOf(rec) :: k in core.rows && after.rows[k] == core.rows[k];
    assert forall k | k in core.rows && k != KeyOf(rec) :: k in after.rows && after.rows[k] == core.rows[k];
    assert KeyOf(rec) in core.rows ==> EntityOf(core.rows[KeyOf(rec)].body) == Students;
    assert after.rows[KeyOf(rec)].body.Student?;
  }

  /** While all schedule ids are the server's own, a row whose student is written and whose days fit the club is
      imported: replacing its schedule cannot fail, and leaves all ids canonical. */
  lemma CanonicalImportSucceeds(env: Env, caller: Caller, db: Db, row: StudentRow, now: Time)
    requires ValidEnv(env) && Tagged(db.core.rows) && AllCanonical(db.core.rows)
    requires forall d | d in row.days :: ':' !in d
    ensures var step, place := ImportStudent(env, caller, db, row, now), Place(env, caller, db.core.rows, row);
      && (step.ImportFails? <==>
            place.PlacementError?
              || (place.Placed? && Write(env, db.core, StudentImport(env, db, row, place, now), now).None?))
      && (step.RowReported? <==>
            place.NotPlaced? || (!step.ImportFails? && OutsideClub(db.core.rows, row, place.clubId)))
      && (!step.ImportFails? ==> AllCanonical(step.db.core.rows))
  {
    hide Place, Write, ReplaceSchedule, StudentCode, AllCanonical, ActiveClubDays, Tagged, Stored;
    var place := Place(env, caller, db.core.rows, row);
    if place.Placed? {
      var rec := StudentImport(env, db, row, place, now);
      if Write(env, db.core, rec, now).Some? {
        var core := Write(env, db.core, rec, now).value;
        WriteKeepsClubDays(env, db.core, rec, now, place.clubId);
        var id := StudentRecordId(env, db.core.rows, row);
        assert rec.id == id;
        hide StudentImport, StudentRecordId;
        CanonicalIdsStay(env, core, id, row.mode, row.days, now);
      }
    }
  }
}

/** The import methods, with the loops and the row counters of the service. */
module ImportServiceModel {
  import opened Text
  import opened Records
  import opened Tables
  import opened Lookups
  import opened History
  import opened Authorization
  import opened Canonical
  import opened PushSpec
  import opened ScheduleSpec
  import opened SyncStoreModel
  import opened ScheduleProofs
  import opened ImportSpec
  import opened ImportProofs

  /** Among the first n entries, v is named before w is. */
  ghost predicate MentionedFirst(parts: seq<string>, n: nat, v: string, w: string)
    requires n <= |parts|
  {
    exists p | 0 <= p < n :: DayNamed(parts[p]) == Some(v) && forall q | 0 <= q <= p :: DayNamed(parts[q]) != Some(w)
  }

  /** The days stand in the order in which they are first named. */
  ghost predicate InMentionOrder(parts: seq<string>, n: nat, days: seq<string>)
    requires n <= |parts|
  {
    forall j, k | 0 <= j < k < |days| :: MentionedFirst(parts, n, days[j], days[k])
  }

  lemma MentionsStay(parts: seq<string>, n: nat, days: seq<string>)
    requires n < |parts| && InMentionOrder(parts, n, days)
    ensures InMentionOrder(parts, n + 1, days)
  {
    hide DayNamed;
  }

  /** A weekday named for the first time comes after all that were named before. */
  lemma FirstMentionOf(parts: seq<string>, n: nat, days: seq<string>, w: string)
    requires n < |parts| && DayNamed(parts[n]) == Some(w) && w !in days
    requires NamedDays(parts[..n], days) && InMentionOrder(parts, n + 1, days)
    ensures InMentionOrder(parts, n + 1, days + [w])
  {
    hide DayNamed;
    var more := days + [w];
    forall j, k | 0 <= j < k < |more|
      ensures MentionedFirst(parts, n + 1, more[j], more[k])
    {
      if k == |days| {
        assert days[j] in days;
        var part :| part in parts[..n] && DayNamed(part) == Some(days[j]);
        var p :| 0 <= p < n && parts[..n][p] == part;
        forall q | 0 <= q <= p
          ensures DayNamed(parts[q]) != Some(w)
        {
          assert parts[..n][q] in parts[..n];
        }
      } else {
        assert MentionedFirst(parts, n + 1, days[j], days[k]);
      }
    }
  }

  /** The days of a schedule cell, from its trimmed, lower-case entries on: each named weekday once, in the order of its
      first mention; None where an entry names no weekday. */
  method ParseScheduleDays(parts: seq<string>) returns (days: Option<seq<string>>)
    ensures days.None? <==> exists p | p in parts :: DayNamed(p).None?
    ensures days.Some? ==>
      && NamedDays(parts, days.value) && Distinct(days.value)
      && InMentionOrder(parts, |parts|, days.value)
      && (forall w | w in days.value :: IsWeekday(w) && ':' !in w)
  {
    hide DayNamed, MentionedFirst, InMentionOrder, NamedDays, IsWeekday;
    NothingNamed(parts);
    var weekdays: seq<string> := [];
    var seen: set<string> := {};
    for i := 0 to |parts|
      invariant forall p | p in parts[..i] :: DayNamed(p).Some?
      invariant NamedDays(parts[..i], weekdays)
      invariant seen == set w | w in weekdays
      invariant Distinct(weekdays)
      invariant InMentionOrder(parts, i, weekdays)
      invariant forall w | w in weekdays :: IsWeekday(w) && ':' !in w
    {
      assert parts[..i + 1] == parts[..i] + [parts[i]];
      assert parts[i] in parts;
      var named := DayNamed(parts[i]);
      if named.None? {
        return None;
      }
      NamedIsWeekday(parts[i]);
      MentionsStay(parts, i, weekdays);
      OneMoreNamed(parts[..i], weekdays, parts[i]);
      if named.value !in seen {
        FirstMentionOf(parts, i, weekdays, named.value);
        seen := seen + {named.value};
        weekdays := weekdays + [named.value];
      }
    }
    assert parts[..|parts|] == parts;
    return Some(weekdays);
  }

  /** The days are those that the entries name. */
  ghost predicate NamedDays(parts: seq<string>, days: seq<string>) {
    forall w :: w in days <==> exists p | p in parts :: DayNamed(p) == Some(w)
  }

  lemma NothingNamed(parts: seq<string>)
    ensures NamedDays(parts[..0], []) && InMentionOrder(parts, 0, [])
  {
  }

  lemma OneMoreNamed(parts: seq<string>, days: seq<string>, part: string)
    requires NamedDays(parts, days) && DayNamed(part).Some?
    ensures DayNamed(part).value in days ==> NamedDays(parts + [part], days)
    ensures NamedDays(parts + [part], days + [DayNamed(part).value])
  {
    hide DayNamed;
    var more := parts + [part];
    assert forall p :: p in more <==> p in parts || p == part;
  }

  lemma NamedIsWeekday(text: string)
    ensures DayNamed(text).Some? ==> IsWeekday(DayNamed(text).value) && ':' !in DayNamed(text).value
  {
  }

  class ImportService {
    const store: SyncStore
    const generateClubCode: string -> string  // the initials of a name

    constructor (store: SyncStore, generateClubCode: string -> string)
      ensures this.store == store && this.generateClubCode == generateClubCode
    {
      this.store, this.generateClubCode := store, generateClubCode;
    }

    /** resolveUniqueClubCode: the first of base, base2, base3, ... that no other live club has. */
    method ResolveUniqueClubCode(base: string, exclude: string) returns (code: string)
      ensures code == ClubCode(store.rows, base, exclude)
    {
      code := base;
      var suffix := 2;
      ghost var remaining := TakenCodes(store.rows, exclude);
      while ClubCodeTaken(store.rows, code, exclude)
        invariant suffix >= 2 && code == Candidate(base, suffix - 2)
        invariant FirstUnused(remaining, base, suffix - 2) == ClubCode(store.rows, base, exclude)
        invariant remaining <= TakenCodes(store.rows, exclude)
        invariant forall k | k >= suffix - 2 ::
          Candidate(base, k) in TakenCodes(store.rows, exclude) <==> Candidate(base, k) in remaining
        decreases |remaining|
      {
        TakenMeansTaken(store.rows, code, exclude);
        forall k | k > suffix - 2
          ensures Candidate(base, k) != code
        {
          CandidatesDiffer(base, k, suffix - 2);
        }
        remaining := remaining - {code};
        code := base + Decimal(suffix);
        suffix := suffix + 1;
      }
      TakenMeansTaken(store.rows, code, exclude);
    }

    /** ImportClubs: every row is written and none is reported. */
    method ImportClubs(caller: Caller, rows: seq<ClubRow>, now: Time) returns (ok: bool, imported: nat, errors: int)
      requires ReadyStore(store.State().core, store.env, now)
      modifies store
      ensures ok == (caller.sysAdmin && caller.userId != "")
      ensures !ok || rows == [] ==> store.State() == old(store.State())
      ensures ok ==> imported == |rows| && errors == 0
      ensures ok && rows != [] ==>
        && ImportAllClubs(store.env, generateClubCode, old(store.State()).core, rows, now) == Some(store.State().core)
        && store.State()
             == old(store.State()).(core := store.State().core, audit :=
                                    old(store.audit) + [ImportAudit(caller, Clubs)])
    {
      hide ReadyStore, Write, ImportStamp, ClubCode;
      imported, errors := 0, 0;
      ok := caller.sysAdmin && caller.userId != "";
      if !ok || rows == [] {
        return;
      }
      store.Begin();
      ghost var start := store.State().core;
      for i := 0 to |rows|
        invariant !store.aborted && imported == i && errors == 0
        invariant ImportAllClubs(store.env, generateClubCode, start, rows[..i], now) == Some(store.State().core)
        invariant store.State() == old(store.State()).(core := store.State().core)
      {
        ClubImportEvolves(store.env, generateClubCode, start, rows[..i + 1], now);
        assert rows[..i + 1][..i] == rows[..i];
        var read, existing := store.GetRecordForUpdate(Clubs, ClubId(rows[i]));
        var code := ResolveUniqueClubCode(generateClubCode(rows[i].name), ClubId(rows[i]));
        var rec := ImportStamp(store.env, ClubId(rows[i]), existing,
                               Club(Some(code), rows[i].name, rows[i].phone, rows[i].email, rows[i].address,
                                    rows[i].notes, rows[i].isActive), now);
        var stored := store.UpsertRecord(rec, now);
        if stored {
          imported := imported + 1;
        } else {
          errors := errors + 1;
        }
      }
      assert rows[..|rows|] == rows;
      ok := store.InsertAuditLog(ImportAudit(caller, Clubs));
      ok := store.Commit();
    }

    /** ImportBeltRanks. A reported row never poisons the transaction. */
    method ImportBeltRanks(caller: Caller, rows: seq<BeltRow>, now: Time) returns (ok: bool, imported: nat, errors: nat)
      requires ReadyStore(store.State().core, store.env, now)
      modifies store
      ensures ok == (caller.sysAdmin && caller.userId != "")
      ensures !ok || rows == [] ==> store.State() == old(store.State())
      ensures ok && rows != [] ==>
        && ImportAllBelts(store.env, old(store.State()).core, rows, now)
             == BeltsDone(store.State().core, imported, errors)
        && store.State()
             == old(store.State()).(core := store.State().core, audit :=
                                    old(store.audit) + [ImportAudit(caller, BeltRanks)])
    {
      hide ReadyStore, Write, BeltImport, BeltOrderTaken, ToRow, ImportBelt;
      imported, errors := 0, 0;
      ok := caller.sysAdmin && caller.userId != "";
      if !ok || rows == [] {
        return;
      }
      store.Begin();
      ghost var start := store.State().core;
      for i := 0 to |rows|
        invariant !store.aborted
        invariant ImportAllBelts(store.env, start, rows[..i], now) == BeltsDone(store.State().core, imported, errors)
        invariant store.State() == old(store.State()).(core := store.State().core)
      {
        BeltImportEvolves(store.env, start, rows[..i], now);
        BeltImportEvolves(store.env, start, rows[..i + 1], now);
        assert rows[..i + 1][..i] == rows[..i];
        ReadyParts(store.State().core, store.env, now);
        var stored := ImportBeltRow(rows[i], now);
        if stored {
          imported := imported + 1;
        } else {
          errors := errors + 1;
        }
      }
      assert rows[..|rows|] == rows;
      ok := store.InsertAuditLog(ImportAudit(caller, BeltRanks));
      ok := store.Commit();
    }

    method ImportBeltRow(row: BeltRow, now: Time) returns (stored: bool)
      requires !store.aborted && ValidEnv(store.env) && Tagged(store.rows)
      modifies store`rows, store`log, store`nextId, store`aborted
      ensures !store.aborted
      ensures var step := ImportBelt(store.env, old(store.State()).core, row, now);
        && !step.NotStored? && stored == step.BeltImported?
        && store.State() == (if stored then old(store.State()).(core := step.core) else old(store.State()))
    {
      hide Write, Vetted, BeltOrderTaken, ToRow, ImportStamp, Tagged, ValidEnv;
      ghost var before := store.State().core;
      BeltImportOutcome(store.env, before, row, now);
      var read, existing := store.GetRecordForUpdate(BeltRanks, BeltId(row));
      if BeltOrderTaken(store.rows, row.order, BeltId(row)) {
        return false;
      }
      var rec :=
        ImportStamp(store.env, BeltId(row), existing, BeltRank(row.name, row.order, row.description, row.isActive),
                    now);
      assert rec == BeltImport(store.env, before.rows, row, now);
      WriteNeedsRow(store.env, before, rec, now);
      stored := store.UpsertRecord(rec, now);
    }

    /** The placement of a student row, with the permissions of each club asked for once. */
    method PlaceRow(caller: Caller, row: StudentRow, cache: map<string, set<Permission>>)
      returns (place: Placement, cache': map<string, set<Permission>>)
      requires Truthful(caller, cache)
      ensures Truthful(caller, cache') && place == Place(store.env, caller, store.rows, row)
    {
      cache' := cache;
      var found := FindClub(store.env, store.rows, row.clubName);
      if found.None? {
        return NotPlaced, cache';
      }
      var clubId := found.value;
      if !caller.sysAdmin {
        if clubId !in cache' {
          var answer := caller.permissions(clubId);
          if answer.None? {
            return PlacementError, cache';
          }
          cache' := cache'[clubId := answer.value];
        }
        if ImportsManage !in cache'[clubId] {
          return NotPlaced, cache';
        }
      }
      var groupId: Option<string> := None;
      if !Blank(row.groupName) {
        groupId := AnyOf(store.env, GroupsByName(store.env, store.rows, clubId, row.groupName.value));
        if groupId.None? {
          return NotPlaced, cache';
        }
      }
      var belt := AnyOf(store.env, BeltsByName(store.env, store.rows, row.beltRankName));
      if belt.None? {
        return NotPlaced, cache';
      }
      return Placed(clubId, groupId, belt.value), cache';
    }

    /** Whether a custom schedule leaves the club's days. */
    method LeavesClub(row: StudentRow, clubId: string) returns (leaves: bool)
      ensures leaves == OutsideClub(store.rows, row, clubId)
    {
      var clubDays := ActiveClubDays(store.rows, clubId);
      if row.mode != "custom" {
        return false;
      }
      for i := 0 to |row.days|
        invariant forall j | 0 <= j < i :: row.days[j] in clubDays
      {
        if row.days[i] !in clubDays {
          return true;
        }
      }
      return false;
    }

    /** One row of ImportStudents: it is imported, reported, or ends the import. */
    method ImportStudentRow(caller: Caller, row: StudentRow, now: Time, cache: map<string, set<Permission>>)
      returns (ok: bool, imported: bool, cache': map<string, set<Permission>>)
      requires !store.aborted && ValidEnv(store.env) && Truthful(caller, cache)
      modifies store
      ensures Truthful(caller, cache') && store.nextId >= old(store.nextId) && store.saved == old(store.saved)
      ensures match ImportStudent(store.env, caller, old(store.State()), row, now)
        case ImportFails => !ok
        case RowReported(db) => ok && !imported && store.State() == db && !store.aborted
        case RowImported(db) => ok && imported && store.State() == db && !store.aborted
    {
      hide Place, Write, ReplaceSchedule, OutsideClub, StudentCode, ValidEnv;
      ok, imported := true, false;
      ghost var before := store.State();
      var place;
      place, cache' := PlaceRow(caller, row, cache);
      if place.PlacementError? {
        return false, false, cache';
      }
      if place.NotPlaced? {
        return;
      }
      var rec := StudentImport(store.env, store.State(), row, place, now);
      var id := StudentRecordId(store.env, store.rows, row);
      if Blank(row.studentCode) {
        var code := store.NextStudentCode();
      }
      ok := store.UpsertRecord(rec, now);
      if !ok {
        return;
      }
      var leaves := LeavesClub(row, place.clubId);
      if leaves {
        return;
      }
      ok := store.ReplaceStudentSchedule(id, row.mode, row.days, now);
      imported := ok;
    }

    /** ImportStudents. A student the database refuses poisons the transaction, so the import as a whole fails. */
    method ImportStudents(caller: Caller, rows: seq<StudentRow>, now: Time)
      returns (ok: bool, imported: nat, reported: nat)
      requires ValidEnv(store.env)
      modifies store
      ensures var result := ImportAllStudents(store.env, caller, old(store.State()), rows, now);
        && ok == (caller.userId != "" && result.StudentsDone?)
        && (ok ==>
              && imported == result.imported && reported == result.reported
              && store.State() == if rows == [] then old(store.State())
                                  else result.db.(audit := result.db.audit + [ImportAudit(caller, Students)]))
      ensures !ok ==>
        && store.nextId >= old(store.nextId)
        && store.State() == old(store.State()).(core := old(store.State()).core.(nextId := store.nextId))
    {
      hide ImportStudent, ValidEnv;
      imported, reported := 0, 0;
      ok := caller.userId != "";
      if !ok || rows == [] {
        return;
      }
      store.Begin();
      ghost var start := store.State();
      var cache: map<string, set<Permission>> := map[];
      for i := 0 to |rows|
        invariant !store.aborted && store.saved == start && store.nextId >= old(store.nextId) && Truthful(caller, cache)
        invariant ImportAllStudents(store.env, caller, start, rows[..i], now)
          == StudentsDone(store.State(), imported, reported)
      {
        assert rows[..i + 1][..i] == rows[..i];
        var wasImported;
        ok, wasImported, cache := ImportStudentRow(caller, rows[i], now, cache);
        if !ok {
          store.Rollback();
          StudentsFailEarly(store.env, caller, start, rows, i + 1, now);
          return;
        }
        if wasImported {
          imported := imported + 1;
        } else {
          reported := reported + 1;
        }
      }
      assert rows[..|rows|] == rows;
      ok := store.InsertAuditLog(ImportAudit(caller, Students));
      ok := store.Commit();
    }

  }

  /** An import fails as soon as a prefix of its rows fails. */
  lemma {:induction false} StudentsFailEarly(env: Env, caller: Caller, db: Db, rows: seq<StudentRow>, n: nat, now: Time)
    requires ValidEnv(env) && n <= |rows| && ImportAllStudents(env, caller, db, rows[..n], now).StudentsFailed?
    ensures ImportAllStudents(env, caller, db, rows, now).StudentsFailed?
  {
    hide ImportStudent, ValidEnv;
    if n == |rows| {
      assert rows[..n] == rows;
    } else {
      var front := rows[..|rows| - 1];
      assert front[..n] == rows[..n];
      StudentsFailEarly(env, caller, db, front, n, now);
    }
  }

  lemma WriteNeedsRow(env: Env, core: Core, rec: Record, now: Time)
    ensures Write(env, core, rec, now).Some? ==> ToRow(env, rec).Some?
  {
    hide ToRow;
  }
}
