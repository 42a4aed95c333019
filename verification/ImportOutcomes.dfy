/** What an imported row leaves in the tables, and which club, group, rank and student a row is about. */
module ImportOutcomes {
  import opened Text
  import opened Records
  import opened Tables
  import opened Lookups
  import opened History
  import opened Authorization
  import opened Canonical
  import opened PushSpec
  import opened ScheduleSpec
  import opened ScheduleProofs
  import opened ImportSpec
  import opened ImportProofs

  // ----- the row an import writes -----------------------------------------------------

  /** One live row is stored under the key, as of `now` and with the creation time of the row it replaces; nothing else
      of the tables changes, and the log gets one row about it. */
  ghost predicate RowImportedAs(before: Core, after: Core, key: Key, body: Columns, now: Time) {
    && (var createdAt := if key in before.rows then before.rows[key].createdAt else now;
        after.rows == before.rows[key := Row(createdAt, now, now, None, body)])
    && before.log <= after.log && |after.log| == |before.log| + 1
    && KeyOf(after.log[|before.log|].record) == key
  }

  lemma StampWritten(env: Env, core: Core, rec: Record, existing: Option<Row>, body: Columns, now: Time)
    requires ValidEnv(env) && rec == ImportStamp(env, rec.id, existing, rec.body, now)
    requires ToColumns(env, rec.body) == Some(body) && Write(env, core, rec, now).Some?
    requires existing == Lookup(core.rows, EntityOf(rec.body), rec.id) || existing.None?
    ensures RowImportedAs(core, Write(env, core, rec, now).value, KeyOf(rec), body, now)
  {
    ImportStampStored(env, rec.id, existing, rec.body, now);
    hide ToColumns, ForeignKeysHold, FitsIndexes, EntityOf, ToRow, ValidEnv;
  }

  // ----- clubs and belt ranks --------------------------------------------------------------

  /** A club row of an import is stored with the row's fields and a code that no other live club has. */
  lemma ClubRowImported(env: Env, core: Core, base: string, row: ClubRow, now: Time)
    requires ValidEnv(env) && Tagged(core.rows)
    ensures var step := Write(env, core, ClubImport(env, core.rows, base, row, now), now);
      var id := if row.slug == "" then "club" else row.slug;
      step.Some? && exists code: string ::
        && RowImportedAs(core, step.value, Key(Clubs, id),
             Club(Some(code), row.name, row.phone, row.email, row.address, row.notes, row.isActive), now)
        && !ClubCodeTaken(core.rows, code, id)
  {
    var rec := ClubImport(env, core.rows, base, row, now);
    ClubImportSucceeds(env, core, base, row, now);
    hide ClubCode, ClubCodeTaken;
    var code := rec.body.code.value;
    StampWritten(env, core, rec, Lookup(core.rows, Clubs, rec.id),
                 Club(Some(code), row.name, row.phone, row.email, row.address, row.notes, row.isActive), now);
  }

  /** A belt rank is reported exactly if a live rank has its order or the order does not fit the column, and is stored
      with the row's fields otherwise. */
  lemma BeltRowImported(env: Env, core: Core, row: BeltRow, now: Time)
    requires ValidEnv(env) && Tagged(core.rows)
    ensures var step := ImportBelt(env, core, row, now);
      var id := if row.slug == "" then "belt-rank" else row.slug;
      if BeltOrderTaken(core.rows, row.order, id) then step == OrderTaken
      else if !(-0x8000_0000 <= row.order < 0x8000_0000) then step == NotSent
      else
        && step.BeltImported?
        && RowImportedAs(core, step.core, Key(BeltRanks, id),
                         BeltRank(row.name, row.order, row.description, row.isActive), now)
  {
    BeltImportOutcome(env, core, row, now);
    hide BeltOrderTaken, Write;
    var rec := BeltImport(env, core.rows, row, now);
    ImportStampStored(env, BeltId(row), Lookup(core.rows, BeltRanks, BeltId(row)), rec.body, now);
    if ImportBelt(env, core, row, now).BeltImported? {
      StampWritten(env, core, rec, Lookup(core.rows, BeltRanks, rec.id),
                   BeltRank(row.name, row.order, row.description, row.isActive), now);
    }
  }

  // ----- where a student row belongs -------------------------------------------------------

  /** The live club a cell names: by its code, or by its name if no live club has that code. */
  ghost predicate ClubNamed(env: Env, rows: Rows, cell: string, clubId: string) {
    && Live(rows, Clubs, clubId) && rows[Key(Clubs, clubId)].body.Club?
    && (rows[Key(Clubs, clubId)].body.code == Some(cell)
        || (env.normalize(rows[Key(Clubs, clubId)].body.name) == env.normalize(cell)
            && forall k | k in rows && k.entity == Clubs && rows[k].deletedAt.None? && rows[k].body.Club? ::
                 rows[k].body.code != Some(cell)))
  }

  ghost predicate GroupNamed(env: Env, rows: Rows, clubId: string, name: string, groupId: string) {
    && Live(rows, ClubGroups, groupId) && rows[Key(ClubGroups, groupId)].body.ClubGroup?
    && rows[Key(ClubGroups, groupId)].body.clubId == clubId
    && env.normalize(rows[Key(ClubGroups, groupId)].body.name) == env.normalize(name)
  }

  ghost predicate RankNamed(env: Env, rows: Rows, name: string, rankId: string) {
    && Live(rows, BeltRanks, rankId) && rows[Key(BeltRanks, rankId)].body.BeltRank?
    && env.normalize(rows[Key(BeltRanks, rankId)].body.name) == env.normalize(name)
  }

  /** A row is placed in a club it names, where the caller may import, in a group of that club and a rank it names. */
  ghost predicate PlacedIn(env: Env, caller: Caller, rows: Rows, row: StudentRow, place: Placement)
    requires place.Placed?
  {
    && ClubNamed(env, rows, row.clubName, place.clubId)
    && (caller.sysAdmin
        || (caller.permissions(place.clubId).Some? && ImportsManage in caller.permissions(place.clubId).value))
    && (if Blank(row.groupName) then place.groupId.None?
        else place.groupId.Some? && GroupNamed(env, rows, place.clubId, row.groupName.value, place.groupId.value))
    && RankNamed(env, rows, row.beltRankName, place.beltRankId)
  }

  lemma AnyOfExactly(env: Env, ids: set<string>)
    requires ValidEnv(env)
    ensures AnyOf(env, ids).None? <==> ids == {}
    ensures AnyOf(env, ids).Some? ==> AnyOf(env, ids).value in ids
  {
    ListingLists(env, ids);
    var order := env.listing(ids);
    assert forall x :: x in order <==> x in ids;
    if order != [] {
      assert order[0] in order;
    }
  }

  lemma ClubFound(env: Env, rows: Rows, cell: string)
    requires ValidEnv(env)
    ensures FindClub(env, rows, cell).None? <==> forall clubId :: !ClubNamed(env, rows, cell, clubId)
    ensures FindClub(env, rows, cell).Some? ==> ClubNamed(env, rows, cell, FindClub(env, rows, cell).value)
  {
    hide ValidEnv, AnyOf;
    AnyOfExactly(env, ClubsByCode(rows, cell));
    AnyOfExactly(env, ClubsByName(env, rows, cell));
    if clubId :| ClubNamed(env, rows, cell, clubId) {
      assert clubId in ClubsByCode(rows, cell) || clubId in ClubsByName(env, rows, cell);
    }
    if FindClub(env, rows, cell).Some? {
      CodeFirst(env, rows, cell, FindClub(env, rows, cell).value);
    }
  }

  lemma CodeFirst(env: Env, rows: Rows, cell: string, clubId: string)
    requires clubId in ClubsByCode(rows, cell)
      || (ClubsByCode(rows, cell) == {} && clubId in ClubsByName(env, rows, cell))
    ensures ClubNamed(env, rows, cell, clubId)
  {
    if ClubsByCode(rows, cell) == {} {
      forall k | k in rows && k.entity == Clubs && rows[k].deletedAt.None? && rows[k].body.Club?
        ensures rows[k].body.code != Some(cell)
      {
        assert k.id !in ClubsByCode(rows, cell);
      }
    }
  }

  /** Placement, exactly: a row is placed only where it belongs; it is left unplaced exactly if it names no live club,
      or the caller may not import into the club it was found to name, or it names a group that club does not have, or
      no live rank; and only the permission service can make placing it an error. */
  lemma PlacementExactly(env: Env, caller: Caller, rows: Rows, row: StudentRow)
    requires ValidEnv(env)
    ensures var place := Place(env, caller, rows, row);
      var club := FindClub(env, rows, row.clubName);
      && (place.Placed? ==> club == Some(place.clubId) && PlacedIn(env, caller, rows, row, place))
      && (place.PlacementError? <==> club.Some? && !caller.sysAdmin && caller.permissions(club.value).None?)
      && (place.NotPlaced? <==>
            || club.None?
            || (!caller.sysAdmin && caller.permissions(club.value).Some?
                && ImportsManage !in caller.permissions(club.value).value)
            || (!place.PlacementError? && !Blank(row.groupName)
                && forall id :: !GroupNamed(env, rows, club.value, row.groupName.value, id))
            || (!place.PlacementError? && forall id :: !RankNamed(env, rows, row.beltRankName, id)))
  {
    hide ValidEnv, AnyOf, FindClub, ClubNamed;
    ClubFound(env, rows, row.clubName);
    var club := FindClub(env, rows, row.clubName);
    RanksFound(env, rows, row.beltRankName);
    AnyOfExactly(env, BeltsByName(env, rows, row.beltRankName));
    if club.Some? && !Blank(row.groupName) {
      GroupsFound(env, rows, club.value, row.groupName.value);
      AnyOfExactly(env, GroupsByName(env, rows, club.value, row.groupName.value));
    }
    hide GroupsByName, BeltsByName, GroupNamed, RankNamed;
  }

  lemma GroupsFound(env: Env, rows: Rows, clubId: string, name: string)
    ensures forall id :: id in GroupsByName(env, rows, clubId, name) <==> GroupNamed(env, rows, clubId, name, id)
  {
    forall id
      ensures id in GroupsByName(env, rows, clubId, name) <==> GroupNamed(env, rows, clubId, name, id)
    {
      if GroupNamed(env, rows, clubId, name, id) {
        assert Key(ClubGroups, id) in rows;
      }
    }
  }

  lemma RanksFound(env: Env, rows: Rows, name: string)
    ensures forall id :: id in BeltsByName(env, rows, name) <==> RankNamed(env, rows, name, id)
  {
    forall id
      ensures id in BeltsByName(env, rows, name) <==> RankNamed(env, rows, name, id)
    {
      if RankNamed(env, rows, name, id) {
        assert Key(BeltRanks, id) in rows;
      }
    }
  }

  // ----- student rows ------------------------------------------------------------------------

  /** Whom a row is about: the live student with its code, if it has one and there is such a student, and otherwise the
      id drawn for the row. */
  lemma StudentNamed(env: Env, rows: Rows, row: StudentRow)
    requires ValidEnv(env)
    ensures var id := StudentRecordId(env, rows, row);
      || (!Blank(row.studentCode) && Live(rows, Students, id) && rows[Key(Students, id)].body.Student?
          && rows[Key(Students, id)].body.studentCode == row.studentCode)
      || (id == row.id
          && (Blank(row.studentCode)
              || forall k | k in rows && k.entity == Students && rows[k].deletedAt.None? && rows[k].body.Student? ::
                   rows[k].body.studentCode != row.studentCode))
  {
    hide ValidEnv, AnyOf;
    if !Blank(row.studentCode) {
      AnyOfExactly(env, StudentsByCode(rows, row.studentCode.value));
      if AnyOf(env, StudentsByCode(rows, row.studentCode.value)).None? {
        forall k | k in rows && k.entity == Students && rows[k].deletedAt.None? && rows[k].body.Student?
          ensures rows[k].body.studentCode != row.studentCode
        {
          assert k.id !in StudentsByCode(rows, row.studentCode.value);
        }
      }
    }
  }

  /** The columns of the student a row is imported as. */
  function StudentColumns(row: StudentRow, code: string, place: Placement): Columns
    requires place.Placed?
  {
    Student(Some(code), row.fullName, row.dateOfBirth, row.gender, row.phone, row.email, row.address, place.clubId,
            place.groupId, place.beltRankId, row.joinedAt, row.status, row.notes)
  }

  /** What the student write of a placed row leaves: the row's own fields under its code, or under the next generated
      one if it has none. */
  lemma StudentWritten(env: Env, caller: Caller, db: Db, row: StudentRow, now: Time)
    requires ValidEnv(env) && Place(env, caller, db.core.rows, row).Placed?
    requires var rec := StudentImport(env, db, row, Place(env, caller, db.core.rows, row), now);
      Write(env, db.core, rec, now).Some?
    ensures var place := Place(env, caller, db.core.rows, row);
      var code := if Blank(row.studentCode) then StudentCode(db.counter + 1) else row.studentCode.value;
      RowImportedAs(db.core, Write(env, db.core, StudentImport(env, db, row, place, now), now).value,
                    Key(Students, StudentRecordId(env, db.core.rows, row)), StudentColumns(row, code, place), now)
  {
    hide ValidEnv, Place, StudentRecordId, StudentCode;
    var place := Place(env, caller, db.core.rows, row);
    var rec := StudentImport(env, db, row, place, now);
    var id := StudentRecordId(env, db.core.rows, row);
    var code := if Blank(row.studentCode) then StudentCode(db.counter + 1) else row.studentCode.value;
    OptionalDateRoundTrip(env, row.dateOfBirth);
    OptionalDateRoundTrip(env, row.joinedAt);
    assert ToColumns(env, rec.body) == Some(StudentColumns(row, code, place));
    StampWritten(env, db.core, rec, if id == row.id then None else Lookup(db.core.rows, Students, id),
                 StudentColumns(row, code, place), now);
  }

  /** An imported row, while schedule ids are the server's own: its student is stored with the row's fields, the
      student's profile says the row's mode, the live weekdays are exactly the row's, and of the tables only the
      student, their profile and their weekdays have changed. */
  lemma ImportedRow(env: Env, caller: Caller, db: Db, row: StudentRow, now: Time)
    requires ValidEnv(env) && Tagged(db.core.rows) && AllCanonical(db.core.rows)
    requires forall d | d in row.days :: ':' !in d
    requires ImportStudent(env, caller, db, row, now).RowImported?
    ensures Place(env, caller, db.core.rows, row).Placed?
    ensures var place := Place(env, caller, db.core.rows, row);
      var code := if Blank(row.studentCode) then StudentCode(db.counter + 1) else row.studentCode.value;
      var id := StudentRecordId(env, db.core.rows, row);
      var key := Key(Students, id);
      var before, after := db.core.rows, ImportStudent(env, caller, db, row, now).db.core.rows;
      && key in after
      && after[key] == Row(if key in before then before[key].createdAt else now, now, now, None,
                           StudentColumns(row, code, place))
      && Key(StudentScheduleProfiles, id) in after
      && after[Key(StudentScheduleProfiles, id)].deletedAt.None?
      && after[Key(StudentScheduleProfiles, id)].body == Profile(id, row.mode)
      && LiveDays(after, id) == (set d | d in row.days)
      && (forall k | k != key && k !in Affected(before, id, row.days) ::
            (k in after <==> k in before) && (k in before ==> after[k] == before[k]))
  {
    hide ValidEnv, Place, StudentRecordId, StudentCode, Write, ReplaceSchedule, StudentImport, AllCanonical, Tagged,
      OutsideClub, Replaceable, Replaced, Affected, LiveDays;
    var place := Place(env, caller, db.core.rows, row);
    var id := StudentRecordId(env, db.core.rows, row);
    var rec := StudentImport(env, db, row, place, now);
    StudentWritten(env, caller, db, row, now);
    var core := Write(env, db.core, rec, now).value;
    var code := if Blank(row.studentCode) then StudentCode(db.counter + 1) else row.studentCode.value;
    StudentOnly(db.core.rows, core.rows, id, core.rows[Key(Students, id)], row.days);
    CanonicalIdsStay(env, core, id, row.mode, row.days, now);
    ScheduleReplaced(env, core, id, row.mode, row.days, now);
    LiveDaysAreRequested(env, core, id, row.mode, row.days, now);
    var after := ReplaceSchedule(env, core, id, row.mode, row.days, now).value.rows;
    ReplacedRows(core.rows, after, id, row.mode, row.days, now);
  }

  /** Writing a student changes nothing about schedules. */
  lemma StudentOnly(before: Rows, after: Rows, id: string, row: Row, weekdays: seq<string>)
    requires Tagged(before) && AllCanonical(before)
    requires row.body.Student? && after == before[Key(Students, id) := row]
    ensures Tagged(after) && AllCanonical(after) && Affected(after, id, weekdays) == Affected(before, id, weekdays)
  {
    assert ScheduleIds(after, id) == ScheduleIds(before, id) by {
      forall x
        ensures x in ScheduleIds(after, id) <==> x in ScheduleIds(before, id)
      {
        var k := Key(StudentSchedules, x);
        assert k in after <==> k in before;
      }
    }
  }

  lemma ReplacedRows(before: Rows, after: Rows, id: string, mode: string, weekdays: seq<string>, now: Time)
    requires Replaced(before, after, id, mode, weekdays, now)
    ensures var profile := Key(StudentScheduleProfiles, id);
      profile in after && after[profile].deletedAt.None? && after[profile].body == Profile(id, mode)
    ensures forall k | k !in Affected(before, id, weekdays) ::
      (k in after <==> k in before) && (k in before ==> after[k] == before[k])
    ensures Key(Students, id) !in Affected(before, id, weekdays)
  {
  }
}
