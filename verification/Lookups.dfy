/** The Find* queries: is there another live row with this value? */
module Lookups {
  import opened Records
  import opened Tables

  /** FindClubByCode */
  predicate ClubCodeTaken(rows: Rows, code: string, exclude: string) {
    exists k | k in rows ::
      && k.entity == Clubs && k.id != exclude && rows[k].deletedAt.None?
      && rows[k].body.Club? && rows[k].body.code == Some(code)
  }

  /** FindClubGroupByName: names are compared after NormalizeSearchText. */
  predicate GroupNameTaken(env: Env, rows: Rows, clubId: string, name: string, exclude: string) {
    exists k | k in rows ::
      && k.entity == ClubGroups && k.id != exclude && rows[k].deletedAt.None?
      && rows[k].body.ClubGroup? && rows[k].body.clubId == clubId
      && env.normalize(rows[k].body.name) == env.normalize(name)
  }

  /** FindClubScheduleByWeekday */
  predicate ClubWeekdayTaken(rows: Rows, clubId: string, weekday: string, exclude: string) {
    exists k | k in rows ::
      && k.entity == ClubSchedules && k.id != exclude && rows[k].deletedAt.None?
      && rows[k].body.ClubSchedule? && rows[k].body.clubId == clubId && rows[k].body.weekday == weekday
  }

  /** FindBeltRankByOrder: the order is converted to int32 before it is compared. */
  predicate BeltOrderTaken(rows: Rows, order: int, exclude: string) {
    exists k | k in rows ::
      && k.entity == BeltRanks && k.id != exclude && rows[k].deletedAt.None?
      && rows[k].body.BeltRank? && rows[k].body.order == Wrap32(order)
  }

  /** FindStudentByCode */
  predicate StudentCodeTaken(rows: Rows, code: string, exclude: string) {
    exists k | k in rows ::
      && k.entity == Students && k.id != exclude && rows[k].deletedAt.None?
      && rows[k].body.Student? && rows[k].body.studentCode == Some(code)
  }

  /** FindStudentScheduleByWeekday */
  predicate StudentWeekdayTaken(rows: Rows, studentId: string, weekday: string, exclude: string) {
    exists k | k in rows ::
      && k.entity == StudentSchedules && k.id != exclude && rows[k].deletedAt.None?
      && rows[k].body.StudentSchedule? && rows[k].body.studentId == studentId && rows[k].body.weekday == weekday
  }

  /** FindAttendanceRecordBySessionAndStudent */
  predicate AttendanceTaken(rows: Rows, sessionId: string, studentId: string, exclude: string) {
    exists k | k in rows ::
      && k.entity == AttendanceRecords && k.id != exclude && rows[k].deletedAt.None?
      && rows[k].body.Attendance? && rows[k].body.sessionId == sessionId && rows[k].body.studentId == studentId
  }

  /** ResolveStudentClubID: "" when there is no such student; soft-deleted students count. */
  function StudentClub(rows: Rows, studentId: string): string {
    var k := Key(Students, studentId);
    if k in rows && rows[k].body.Student? then rows[k].body.clubId else ""
  }

  /** ResolveAttendanceSessionClubID */
  function SessionClub(rows: Rows, sessionId: string): string {
    var k := Key(AttendanceSessions, sessionId);
    if k in rows && rows[k].body.Session? then rows[k].body.clubId else ""
  }
}
