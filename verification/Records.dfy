/** The ten synchronised entities, as JSON payloads carry them (times and dates
    are text) and as table rows keep them (times and dates are values). */
module Records {
  import opened Text

  datatype Option<+T> = None | Some(value: T) {
    predicate IsFailure() {
      None?
    }

    function PropagateFailure<U>(): Option<U>
      requires None?
    {
      None
    }

    function Extract(): T
      requires Some?
    {
      value
    }
  }

  /** Microseconds in a day. */
  const DAY: nat := 86_400_000_000

  /** A civil date, numbered in a calendar of twelve 31-day months so that the
      numbers are ordered as the dates are. */
  type Date = d: nat | d < 3_720_000

  /** A UTC instant at the microsecond precision of a TIMESTAMPTZ column:
      DAY times its date plus the time of day. */
  type Time = t: nat | t < 321_408_000_000_000_000

  /** The UTC date of an instant. */
  function DateOf(t: Time): Date {
    t / DAY
  }

  datatype EntityName =
    | Clubs | ClubGroups | ClubSchedules | BeltRanks
    | Students | StudentMessages | StudentScheduleProfiles | StudentSchedules
    | AttendanceSessions | AttendanceRecords
    | OtherEntity(name: string)

  datatype Key = Key(entity: EntityName, id: string)

  /** The fields of an entity besides the common ones. D and T are the types
      of dates and instants: text in a payload, values in a row. */
  datatype Body<D, T> =
    | Club(code: Option<string>, name: string, phone: Option<string>, email: Option<string>,
           address: Option<string>, notes: Option<string>, isActive: bool)
    | ClubGroup(clubId: string, name: string, description: Option<string>, isActive: bool)
    | ClubSchedule(clubId: string, weekday: string, isActive: bool)
    | BeltRank(name: string, order: int, description: Option<string>, isActive: bool)
    | Student(studentCode: Option<string>, fullName: string, dateOfBirth: Option<D>,
              gender: Option<string>, phone: Option<string>, email: Option<string>,
              address: Option<string>, clubId: string, groupId: Option<string>,
              beltRankId: string, joinedAt: Option<D>, status: string, notes: Option<string>)
    | Message(studentId: string, clubId: string, messageType: string, content: string,
              authorUserId: Option<string>, authorName: string,
              aboutSession: Option<string>, aboutRecord: Option<string>,
              aboutDate: Option<D>, aboutStatus: Option<string>)
    | Profile(studentId: string, mode: string)
    | StudentSchedule(studentId: string, weekday: string, isActive: bool)
    | Session(clubId: string, sessionDate: D, status: string, notes: Option<string>)
    | Attendance(sessionId: string, studentId: string, attendanceStatus: string,
                 checkInAt: Option<T>, notes: Option<string>)

  /** The fields of an entity in a JSON payload. */
  type Fields = Body<string, string>

  /** The fields of an entity in a table row. */
  type Columns = Body<Date, Time>

  /** A JSON payload. An absent optional value and a null one are the same. */
  datatype Record = Record(
    id: string, createdAt: string, updatedAt: string, lastModifiedAt: string,
    syncStatus: string, deletedAt: Option<string>, body: Fields)

  /** A table row; its id is the key it is stored under. */
  datatype Row = Row(
    createdAt: Time, updatedAt: Time, lastModifiedAt: Time,
    deletedAt: Option<Time>, body: Columns)

  function EntityOf<D, T>(body: Body<D, T>): EntityName {
    match body
    case Club(_, _, _, _, _, _, _) => Clubs
    case ClubGroup(_, _, _, _) => ClubGroups
    case ClubSchedule(_, _, _) => ClubSchedules
    case BeltRank(_, _, _, _) => BeltRanks
    case Student(_, _, _, _, _, _, _, _, _, _, _, _, _) => Students
    case Message(_, _, _, _, _, _, _, _, _, _) => StudentMessages
    case Profile(_, _) => StudentScheduleProfiles
    case StudentSchedule(_, _, _) => StudentSchedules
    case Session(_, _, _, _) => AttendanceSessions
    case Attendance(_, _, _, _, _) => AttendanceRecords
  }

  function KeyOf(rec: Record): Key {
    Key(EntityOf(rec.body), rec.id)
  }

  /** Everything the store and service take from outside. */
  datatype Env = Env(
    parseTime: string -> Option<Time>,      // time.Parse(time.RFC3339Nano, _)
    formatTime: Time -> string,             // UTC().Format(time.RFC3339Nano)
    parseDate: string -> Option<Date>,      // time.Parse("2006-01-02", _)
    formatDate: Date -> string,             // Format("2006-01-02")
    normalize: string -> string,            // NormalizeSearchText
    listing: set<string> -> seq<string>,    // the order in which unordered rows or map keys are visited
    users: set<string>)                     // ids in the users table

  /** s visits every element of xs exactly once. */
  ghost predicate Lists(s: seq<string>, xs: set<string>) {
    && (forall x :: x in s <==> x in xs)
    && (forall i, j | 0 <= i < j < |s| :: s[i] != s[j])
  }

  /** What the model needs from time formatting and from row order. */
  ghost predicate ValidEnv(env: Env) {
    && (forall t: Time :: env.parseTime(env.formatTime(t)) == Some(t))
    && (forall d: Date :: env.parseDate(env.formatDate(d)) == Some(d))
    && env.parseTime("") == None
    && env.parseDate("") == None
    && (forall t: Time :: '#' !in env.formatTime(t) && IsTrimmed(env.formatTime(t)))
    && (forall xs: set<string> :: Lists(env.listing(xs), xs))
  }

  lemma ListingLists(env: Env, ids: set<string>)
    requires ValidEnv(env)
    ensures Lists(env.listing(ids), ids)
  {
  }

  /** parseOptionalDate and parseOptionalTimestamp: an absent or empty text is NULL. */
  function ParseOptional<V>(parse: string -> Option<V>, text: Option<string>): Option<Option<V>> {
    if text.None? || text.value == "" then Some(None)
    else
      var v :- parse(text.value);
      Some(Some(v))
  }

  function FormatOptional<V>(format: V -> string, v: Option<V>): Option<string> {
    if v.None? then None else Some(format(v.value))
  }

  /** The largest value of an INTEGER column. */
  const INT32_MAX: int := 2_147_483_647

  /** int32(x) in Go. */
  function Wrap32(x: int): int {
    (x + 2_147_483_648) % 4_294_967_296 - 2_147_483_648
  }

  /** The column values of a payload's fields; None where the statement cannot be sent. */
  function ToColumns(env: Env, f: Fields): Option<Columns> {
    match f
    case Club(code, name, phone, email, address, notes, isActive) =>
      Some(Club(code, name, phone, email, address, notes, isActive))
    case ClubGroup(clubId, name, description, isActive) =>
      Some(ClubGroup(clubId, name, description, isActive))
    case ClubSchedule(clubId, weekday, isActive) =>
      Some(ClubSchedule(clubId, weekday, isActive))
    case BeltRank(name, order, description, isActive) =>
      if -INT32_MAX - 1 <= order <= INT32_MAX then Some(BeltRank(name, order, description, isActive)) else None
    case Student(code, fullName, dateOfBirth, gender, phone, email, address, clubId, groupId, beltRankId, joinedAt,
                 status, notes) =>
      var born :- ParseOptional(env.parseDate, dateOfBirth);
      var joined :- ParseOptional(env.parseDate, joinedAt);
      Some(Student(code, fullName, born, gender, phone, email, address, clubId, groupId, beltRankId, joined, status,
                   notes))
    case Message(studentId, clubId, messageType, content, authorUserId, authorName, aboutSession, aboutRecord,
                 aboutDate, aboutStatus) =>
      var date :- ParseOptional(env.parseDate, aboutDate);
      Some(Message(studentId, clubId, messageType, content, authorUserId, authorName, aboutSession, aboutRecord, date,
                   aboutStatus))
    case Profile(studentId, mode) =>
      Some(Profile(studentId, mode))
    case StudentSchedule(studentId, weekday, isActive) =>
      Some(StudentSchedule(studentId, weekday, isActive))
    case Session(clubId, sessionDate, status, notes) =>
      var date :- env.parseDate(sessionDate);
      Some(Session(clubId, date, status, notes))
    case Attendance(sessionId, studentId, attendanceStatus, checkInAt, notes) =>
      var checkIn :- ParseOptional(env.parseTime, checkInAt);
      Some(Attendance(sessionId, studentId, attendanceStatus, checkIn, notes))
  }

  /** The payload fields a reader renders from a row's columns. */
  function FromColumns(env: Env, c: Columns): Fields {
    match c
    case Club(code, name, phone, email, address, notes, isActive) =>
      Club(code, name, phone, email, address, notes, isActive)
    case ClubGroup(clubId, name, description, isActive) =>
      ClubGroup(clubId, name, description, isActive)
    case ClubSchedule(clubId, weekday, isActive) =>
      ClubSchedule(clubId, weekday, isActive)
    case BeltRank(name, order, description, isActive) =>
      BeltRank(name, order, description, isActive)
    case Student(code, fullName, dateOfBirth, gender, phone, email, address, clubId, groupId, beltRankId, joinedAt,
                 status, notes) =>
      Student(code, fullName, FormatOptional(env.formatDate, dateOfBirth), gender, phone, email, address,
              clubId, groupId, beltRankId, FormatOptional(env.formatDate, joinedAt), status, notes)
    case Message(studentId, clubId, messageType, content, authorUserId, authorName, aboutSession, aboutRecord,
                 aboutDate, aboutStatus) =>
      Message(studentId, clubId, messageType, content, authorUserId, authorName, aboutSession, aboutRecord,
              FormatOptional(env.formatDate, aboutDate), aboutStatus)
    case Profile(studentId, mode) =>
      Profile(studentId, mode)
    case StudentSchedule(studentId, weekday, isActive) =>
      StudentSchedule(studentId, weekday, isActive)
    case Session(clubId, sessionDate, status, notes) =>
      Session(clubId, env.formatDate(sessionDate), status, notes)
    case Attendance(sessionId, studentId, attendanceStatus, checkInAt, notes) =>
      Attendance(sessionId, studentId, attendanceStatus, FormatOptional(env.formatTime, checkInAt), notes)
  }

  /** parseAuditTimes and the upsert argument lists: the row a payload is stored as. */
  function ToRow(env: Env, rec: Record): Option<Row> {
    var createdAt :- env.parseTime(rec.createdAt);
    var updatedAt :- env.parseTime(rec.updatedAt);
    var lastModifiedAt :- env.parseTime(rec.lastModifiedAt);
    if rec.deletedAt.Some? then
      var deletedAt :- env.parseTime(rec.deletedAt.value);
      var body :- ToColumns(env, rec.body);
      Some(Row(createdAt, updatedAt, lastModifiedAt, Some(deletedAt), body))
    else
      var body :- ToColumns(env, rec.body);
      Some(Row(createdAt, updatedAt, lastModifiedAt, None, body))
  }

  /** The payload a reader renders from a row. */
  function FromRow(env: Env, id: string, row: Row): Record {
    Record(id, env.formatTime(row.createdAt), env.formatTime(row.updatedAt), env.formatTime(row.lastModifiedAt),
           "synced", FormatOptional(env.formatTime, row.deletedAt), FromColumns(env, row.body))
  }

  /** A formatted instant or date is not empty, since the empty text does not parse. */
  lemma FormattedNotEmpty(env: Env, t: Time, d: Date)
    requires ValidEnv(env)
    ensures env.formatTime(t) != "" && env.formatDate(d) != ""
  {
    assert env.parseTime(env.formatTime(t)) == Some(t);
    assert env.parseDate(env.formatDate(d)) == Some(d);
  }

  /** Rows survive being read and written again: nothing a reader renders is lost on the way back. */
  lemma ReadBackRoundTrip(env: Env, id: string, row: Row)
    requires ValidEnv(env)
    requires row.body.BeltRank? ==> -INT32_MAX - 1 <= row.body.order <= INT32_MAX
    ensures ToRow(env, FromRow(env, id, row)) == Some(row)
    ensures EntityOf(FromColumns(env, row.body)) == EntityOf(row.body)
  {
    FormattedNotEmpty(env, row.createdAt, 0);
    ColumnsRoundTrip(env, row.body);
    assert env.parseTime(env.formatTime(row.createdAt)) == Some(row.createdAt);
  }

  lemma ColumnsRoundTrip(env: Env, c: Columns)
    requires ValidEnv(env)
    requires c.BeltRank? ==> -INT32_MAX - 1 <= c.order <= INT32_MAX
    ensures ToColumns(env, FromColumns(env, c)) == Some(c)
  {
    match c
    case Student(_, _, dateOfBirth, _, _, _, _, _, _, _, joinedAt, _, _) =>
      OptionalDateRoundTrip(env, dateOfBirth);
      OptionalDateRoundTrip(env, joinedAt);
    case Message(_, _, _, _, _, _, _, _, aboutDate, _) =>
      OptionalDateRoundTrip(env, aboutDate);
    case Session(_, sessionDate, _, _) =>
      assert env.parseDate(env.formatDate(sessionDate)) == Some(sessionDate);
    case Attendance(_, _, _, checkInAt, _) =>
      OptionalTimeRoundTrip(env, checkInAt);
    case _ =>
  }

  lemma OptionalDateRoundTrip(env: Env, d: Option<Date>)
    requires ValidEnv(env)
    ensures ParseOptional(env.parseDate, FormatOptional(env.formatDate, d)) == Some(d)
  {
    if d.Some? {
      FormattedNotEmpty(env, 0, d.value);
      assert env.parseDate(env.formatDate(d.value)) == Some(d.value);
    }
  }

  lemma OptionalTimeRoundTrip(env: Env, t: Option<Time>)
    requires ValidEnv(env)
    ensures ParseOptional(env.parseTime, FormatOptional(env.formatTime, t)) == Some(t)
  {
    if t.Some? {
      FormattedNotEmpty(env, t.value, 0);
      assert env.parseTime(env.formatTime(t.value)) == Some(t.value);
    }
  }

  /** Storing a payload keeps its entity. */
  lemma ToRowKeepsEntity(env: Env, rec: Record)
    requires ToRow(env, rec).Some?
    ensures EntityOf(ToRow(env, rec).value.body) == EntityOf(rec.body)
  {
  }
}
