/**
 The attendance handlers: a student's attendance history and summary,
 session creation and batch marking by the group's teacher, and the
 teacher's per-group rates.

 Attendance rows are kept in insertion order with at most one row per
 (session, student); a row always names an existing session.
 */
module AttendanceViews {
  import opened Common
  import opened Sorting
  import opened UserModels
  import opened CourseModels
  import opened AttendanceModels

  const StudentsOnly := "Solo estudiantes pueden acceder"
  const TeachersOnly := "Solo docentes pueden acceder"
  const TeachersOnlyCreate := "Solo docentes pueden crear sesiones"
  const TeachersOnlyMark := "Solo docentes pueden marcar asistencia"
  const StudentProfileMissing := "Perfil de estudiante no encontrado"
  const GroupRequired := "course_group es requerido"
  const NoGroupAccess := "No tienes acceso a este grupo"
  const NoSessionAccess := "No tienes acceso a esta sesi\U{f3}n"
  const NoSchedule := "No hay horario definido para este grupo"
  const SessionRequired := "session_id es requerido"
  const AttendancesRequired := "attendances es requerido"
  const UniqueSession := "The fields course_group, schedule, date must make a unique set."

  // ---------------------------------------------------------------------
  // Joins through the session

  /** A session's primary key, the key `AttendanceSession.objects.get(id=id)` looks up by. */
  function SessionId(s: AttendanceSession): nat { s.id }

  /** `session__date`; a row always resolves its session, so the fallback is never taken. */
  function SessionDate(sessions: seq<AttendanceSession>, id: nat): Date {
    match FindById(sessions, SessionId, id)
    case Some(s) => s.date
    case None => 0
  }

  /** `session__course_group`. */
  function SessionGroup(sessions: seq<AttendanceSession>, id: nat): Option<nat> {
    match FindById(sessions, SessionId, id)
    case Some(s) => Some(s.group)
    case None => None
  }

  /** `session__schedule__subject`: the subject of the schedule the session belongs to. */
  function SubjectOf(sessions: seq<AttendanceSession>, schedules: seq<Schedule>, id: nat): Option<string> {
    match FindById(sessions, SessionId, id)
    case None => None
    case Some(s) =>
      match FindById(schedules, ScheduleId, s.schedule)
      case None => None
      case Some(sc) => Some(sc.subject)
  }

  /** `Attendance.objects.filter(student=...)`. */
  function RowsOf(rows: seq<Attendance>, student: nat): seq<Attendance> {
    Filter(rows, (a: Attendance) => a.student == student)
  }

  // ---------------------------------------------------------------------
  // student_attendance

  /** `student_attendance`: the caller's rows, latest session date first. */
  function StudentAttendance(user: User, sessions: seq<AttendanceSession>, rows: seq<Attendance>): (r: Result<seq<Attendance>>)
    ensures user.rol != Estudiante ==> r == Err(Forbidden(StudentsOnly))
    ensures user.rol == Estudiante && user.studentProfile.None? ==> r == Err(ProfileMissing(StudentProfileMissing))
    ensures r.Ok? ==> user.rol == Estudiante && user.studentProfile.Some?
    ensures r.Ok? ==> forall i :: 0 <= i < |r.value| ==> r.value[i] in rows && r.value[i].student == user.studentProfile.value.id
    ensures r.Ok? ==> forall a :: a in rows && a.student == user.studentProfile.value.id ==> a in r.value
    ensures r.Ok? ==> SortedBy(r.value, KeyDesc((a: Attendance) => SessionDate(sessions, a.session)))
  {
    if user.rol != Estudiante then Err(Forbidden(StudentsOnly))
    else match user.studentProfile
      case None => Err(ProfileMissing(StudentProfileMissing))
      case Some(p) =>
        var mine := RowsOf(rows, p.id);
        var byDate := KeyDesc((a: Attendance) => SessionDate(sessions, a.session));
        KeyOrdersArePreorders((a: Attendance) => SessionDate(sessions, a.session));
        SortSpec(mine, byDate);
        assert forall a :: a in rows && a.student == p.id ==> a in mine;
        Ok(Sort(mine, byDate))
  }

  // ---------------------------------------------------------------------
  // attendance_summary

  datatype SubjectTally = SubjectTally(total: nat, present: nat, percentage: real)

  datatype Summary = Summary(
    totalSessions: nat,
    presentCount: nat,
    absentCount: nat,
    lateCount: nat,
    excusedCount: nat,
    attendancePercentage: real,
    bySubject: map<string, SubjectTally>)

  /** The distinct subjects of a student's rows. */
  function Subjects(sessions: seq<AttendanceSession>, schedules: seq<Schedule>, mine: seq<Attendance>): set<string> {
    set a | a in mine && SubjectOf(sessions, schedules, a.session).Some? :: SubjectOf(sessions, schedules, a.session).value
  }

  /** The rows of one subject. */
  function RowsOfSubject(sessions: seq<AttendanceSession>, schedules: seq<Schedule>, mine: seq<Attendance>, subject: string): seq<Attendance> {
    Filter(mine, (a: Attendance) => SubjectOf(sessions, schedules, a.session) == Some(subject))
  }

  function Tally(rows: seq<Attendance>): (t: SubjectTally)
    ensures t.total == |rows| && t.present == CountStatus(rows, Present)
    ensures t.present <= t.total
    ensures t.percentage == Rate(t.present, t.total) && 0.0 <= t.percentage <= 100.0
    ensures t.total > 0 ==> t.percentage * (t.total as real) == (t.present as real) * 100.0
  {
    SubjectTally(|rows|, CountStatus(rows, Present), Rate(CountStatus(rows, Present), |rows|))
  }

  /** The counts, the overall rate and the per-subject breakdown of a student's rows. */
  function SummaryOf(sessions: seq<AttendanceSession>, schedules: seq<Schedule>, mine: seq<Attendance>): (r: Summary)
    ensures r.totalSessions == |mine|
    ensures r.presentCount == CountStatus(mine, Present) && r.absentCount == CountStatus(mine, Absent)
    ensures r.lateCount == CountStatus(mine, Late) && r.excusedCount == CountStatus(mine, Excused)
    ensures r.attendancePercentage == Rate(r.presentCount, r.totalSessions)
    ensures r.bySubject.Keys == Subjects(sessions, schedules, mine)
    ensures forall s :: s in r.bySubject ==> r.bySubject[s] == Tally(RowsOfSubject(sessions, schedules, mine, s))
  {
    Summary(
      |mine|,
      CountStatus(mine, Present), CountStatus(mine, Absent), CountStatus(mine, Late), CountStatus(mine, Excused),
      Rate(CountStatus(mine, Present), |mine|),
      map s | s in Subjects(sessions, schedules, mine) :: Tally(RowsOfSubject(sessions, schedules, mine, s)))
  }

  /** Each subject entry covers at least one row. */
  lemma {:induction false} SubjectRowsNonEmpty(sessions: seq<AttendanceSession>, schedules: seq<Schedule>, mine: seq<Attendance>, s: string)
    requires s in Subjects(sessions, schedules, mine)
    ensures |RowsOfSubject(sessions, schedules, mine, s)| > 0
  {
    var a :| a in mine && SubjectOf(sessions, schedules, a.session).Some? && SubjectOf(sessions, schedules, a.session).value == s;
    var k :| 0 <= k < |mine| && mine[k] == a;
    assert mine[k] in RowsOfSubject(sessions, schedules, mine, s);
  }

  /** So every subject entry's rate is its present count over a positive total, times 100. */
  lemma SubjectEntryRate(sessions: seq<AttendanceSession>, schedules: seq<Schedule>, mine: seq<Attendance>, s: string)
    requires s in Subjects(sessions, schedules, mine)
    ensures var t := Tally(RowsOfSubject(sessions, schedules, mine, s));
      t.total > 0 && t.present <= t.total && t.percentage * (t.total as real) == (t.present as real) * 100.0
  {
    SubjectRowsNonEmpty(sessions, schedules, mine, s);
    var t := Tally(RowsOfSubject(sessions, schedules, mine, s));
    assert t.total > 0;
  }

  /** With only listed status codes, the four counts add up to the total. */
  lemma SummaryCountsPartition(sessions: seq<AttendanceSession>, schedules: seq<Schedule>, mine: seq<Attendance>)
    requires forall i :: 0 <= i < |mine| ==> Listed(mine[i].status)
    ensures var r := SummaryOf(sessions, schedules, mine);
      r.presentCount + r.absentCount + r.lateCount + r.excusedCount == r.totalSessions
  {
    ListedStatusPartition(mine);
  }

  /**
   `attendance_summary` as written: it asks for `session__subject`, a field an
   attendance session does not have, so for a student the query raises and the
   handler answers 500.
   */
  function SummaryAsWritten(user: User): (r: Result<Summary>)
    ensures r.Err?
    ensures user.rol != Estudiante ==> r == Err(Forbidden(StudentsOnly))
    ensures user.rol == Estudiante ==> r == Err(ServerError)
  {
    if user.rol != Estudiante then Err(Forbidden(StudentsOnly)) else Err(ServerError)
  }

  /**
   `attendance_summary` with the subject taken from the session's schedule.
   A student without a profile still ends in the catch-all.
   */
  function StudentSummary(user: User, sessions: seq<AttendanceSession>, schedules: seq<Schedule>, rows: seq<Attendance>): (r: Result<Summary>)
    ensures user.rol != Estudiante ==> r == Err(Forbidden(StudentsOnly))
    ensures user.rol == Estudiante && user.studentProfile.None? ==> r == Err(ServerError)
    ensures user.rol == Estudiante && user.studentProfile.Some? ==>
      r == Ok(SummaryOf(sessions, schedules, RowsOf(rows, user.studentProfile.value.id)))
  {
    if user.rol != Estudiante then Err(Forbidden(StudentsOnly))
    else match user.studentProfile
      case None => Err(ServerError)
      case Some(p) => Ok(SummaryOf(sessions, schedules, RowsOf(rows, p.id)))
  }

  /** For every student with a profile the written handler fails where the intended one answers. */
  lemma SummaryDiscrepancy(user: User, sessions: seq<AttendanceSession>, schedules: seq<Schedule>, rows: seq<Attendance>)
    requires user.rol == Estudiante && user.studentProfile.Some?
    ensures SummaryAsWritten(user) == Err(ServerError)
    ensures StudentSummary(user, sessions, schedules, rows).Ok?
  {
  }

  // ---------------------------------------------------------------------
  // teacher_attendance_stats

  datatype GroupStat = GroupStat(group: CourseGroup, attendanceRate: real, enrolledStudents: nat)

  datatype TeacherStats = TeacherStats(averageAttendance: real, totalSessions: nat, totalGroups: nat, groupStats: seq<GroupStat>)

  /** `CourseGroup.objects.filter(teacher__user=user)`, in storage order. */
  function GroupsOf(c: Campus, teacher: UserId): seq<CourseGroup> {
    Filter(c.groups, (g: CourseGroup) => g.teacherUser == teacher)
  }

  /** `Attendance.objects.filter(session__course_group__in=groups)`. */
  function RowsInGroups(sessions: seq<AttendanceSession>, rows: seq<Attendance>, groups: set<nat>): seq<Attendance> {
    Filter(rows, (a: Attendance) => SessionGroup(sessions, a.session).Some? && SessionGroup(sessions, a.session).value in groups)
  }

  function ActiveEnrollments(c: Campus, group: nat): nat {
    Count(c.enrollments, (e: Enrollment) => e.group == group && e.isActive)
  }

  // ---------------------------------------------------------------------
  // Batch marking

  /** One entry of `attendances`; `None` stands for a missing key. */
  datatype MarkItem = MarkItem(studentId: Option<nat>, status: Option<string>, arrivalTime: Option<int>, notes: Option<string>)

  datatype MarkForm = MarkForm(sessionId: Option<nat>, items: seq<MarkItem>)

  /** An entry is processed when its student id resolves to a profile and it carries a status. */
  predicate Resolves(it: MarkItem, profiles: set<nat>) {
    it.studentId.Some? && it.studentId.value in profiles && it.status.Some?
  }

  /** The row `update_or_create` leaves for a processed entry. */
  function RowOf(session: nat, it: MarkItem, marker: UserId): (a: Attendance)
    requires it.studentId.Some? && it.status.Some?
    ensures AttendanceKey(a) == (session, it.studentId.value) && a.markedBy == marker
    ensures a.status == ParseStatus(it.status.value) && a.arrivalTime == it.arrivalTime
  {
    Attendance(session, it.studentId.value, ParseStatus(it.status.value), it.arrivalTime, Some(it.notes.GetOr("")), marker)
  }

  /** `update_or_create` on (session, student): overwrite the row with that key, or append one. */
  function Upsert(rows: seq<Attendance>, a: Attendance): seq<Attendance> {
    if rows == [] then [a]
    else if AttendanceKey(rows[0]) == AttendanceKey(a) then [a] + rows[1..]
    else [rows[0]] + Upsert(rows[1..], a)
  }

  function Keys(rows: seq<Attendance>): set<(nat, nat)> {
    set a | a in rows :: AttendanceKey(a)
  }

  lemma {:induction false} UpsertSpec(rows: seq<Attendance>, a: Attendance)
    requires KeysUnique(rows)
    ensures KeysUnique(Upsert(rows, a))
    ensures Keys(Upsert(rows, a)) == Keys(rows) + {AttendanceKey(a)}
    ensures a in Upsert(rows, a)
    ensures forall b :: b in rows && AttendanceKey(b) != AttendanceKey(a) ==> b in Upsert(rows, a)
    ensures forall b :: b in Upsert(rows, a) && AttendanceKey(b) == AttendanceKey(a) ==> b == a
    ensures forall b :: b in Upsert(rows, a) ==> b == a || b in rows
  {
    if rows == [] {
    } else if AttendanceKey(rows[0]) == AttendanceKey(a) {
      var r := Upsert(rows, a);
      assert r[1..] == rows[1..];
      assert rows == [rows[0]] + rows[1..];
      forall b | b in r && AttendanceKey(b) == AttendanceKey(a) ensures b == a {
        var k :| 0 <= k < |r| && r[k] == b;
      }
    } else {
      var r := Upsert(rows, a);
      var t := Upsert(rows[1..], a);
      assert rows == [rows[0]] + rows[1..];
      UpsertSpec(rows[1..], a);
      assert r == [rows[0]] + t;
      assert Keys(rows) == {AttendanceKey(rows[0])} + Keys(rows[1..]);
      assert Keys(r) == {AttendanceKey(rows[0])} + Keys(t);
      assert AttendanceKey(rows[0]) !in Keys(rows[1..]);
      forall i, j | 0 <= i < j < |r| ensures AttendanceKey(r[i]) != AttendanceKey(r[j]) {
        if i == 0 {
          assert r[j] in t;
        }
      }
    }
  }

  /** Every row names an existing session. */
  predicate RowsResolve(sessions: seq<AttendanceSession>, rows: seq<Attendance>) {
    forall b :: b in rows ==> FindById(sessions, SessionId, b.session).Some?
  }

  lemma UpsertResolves(sessions: seq<AttendanceSession>, rows: seq<Attendance>, a: Attendance)
    requires KeysUnique(rows) && RowsResolve(sessions, rows) && FindById(sessions, SessionId, a.session).Some?
    ensures RowsResolve(sessions, Upsert(rows, a))
  {
    UpsertSpec(rows, a);
  }

  /** The table after the first entries of a batch. */
  function MarkAll(rows: seq<Attendance>, session: nat, items: seq<MarkItem>, profiles: set<nat>, marker: UserId): seq<Attendance>
    decreases |items|
  {
    if items == [] then rows
    else
      var done := MarkAll(rows, session, items[..|items| - 1], profiles, marker);
      var it := items[|items| - 1];
      if Resolves(it, profiles) then Upsert(done, RowOf(session, it, marker)) else done
  }

  /** The rows the response lists: one per processed entry, in input order. */
  function Processed(session: nat, items: seq<MarkItem>, profiles: set<nat>, marker: UserId): (r: seq<Attendance>)
    ensures |r| <= |items|
    ensures forall i :: 0 <= i < |r| ==> r[i].session == session && r[i].markedBy == marker && r[i].student in profiles
    decreases |items|
  {
    if items == [] then []
    else
      var done := Processed(session, items[..|items| - 1], profiles, marker);
      var it := items[|items| - 1];
      if Resolves(it, profiles) then done + [RowOf(session, it, marker)] else done
  }

  /** Exactly the entries that resolve are processed. */
  lemma {:induction false} ProcessedCount(session: nat, items: seq<MarkItem>, profiles: set<nat>, marker: UserId)
    ensures |Processed(session, items, profiles, marker)| == Count(items, (it: MarkItem) => Resolves(it, profiles))
    decreases |items|
  {
    if items != [] {
      var init := items[..|items| - 1];
      var last := items[|items| - 1];
      assert items == init + [last];
      ProcessedCount(session, init, profiles, marker);
      FilterAppend(init, [last], (it: MarkItem) => Resolves(it, profiles));
    }
  }

  /** A batch keeps one row per key and adds exactly the keys of the processed entries. */
  lemma {:induction false} MarkAllSpec(rows: seq<Attendance>, session: nat, items: seq<MarkItem>, profiles: set<nat>, marker: UserId)
    requires KeysUnique(rows)
    ensures KeysUnique(MarkAll(rows, session, items, profiles, marker))
    ensures Keys(MarkAll(rows, session, items, profiles, marker)) == Keys(rows) + Keys(Processed(session, items, profiles, marker))
    decreases |items|
  {
    if items != [] {
      var init := items[..|items| - 1];
      var it := items[|items| - 1];
      MarkAllSpec(rows, session, init, profiles, marker);
      var done := MarkAll(rows, session, init, profiles, marker);
      var p := Processed(session, init, profiles, marker);
      if Resolves(it, profiles) {
        UpsertSpec(done, RowOf(session, it, marker));
        assert Keys(p + [RowOf(session, it, marker)]) == Keys(p) + {AttendanceKey(RowOf(session, it, marker))};
      }
    }
  }

  /** A row not touched by any processed entry survives the batch. */
  lemma {:induction false} MarkAllKeepsOthers(rows: seq<Attendance>, session: nat, items: seq<MarkItem>, profiles: set<nat>, marker: UserId, b: Attendance)
    requires KeysUnique(rows) && b in rows
    requires forall i :: 0 <= i < |items| && Resolves(items[i], profiles) ==> AttendanceKey(b) != (session, items[i].studentId.value)
    ensures b in MarkAll(rows, session, items, profiles, marker)
    decreases |items|
  {
    if items != [] {
      var init := items[..|items| - 1];
      MarkAllKeepsOthers(rows, session, init, profiles, marker, b);
      MarkAllSpec(rows, session, init, profiles, marker);
      var it := items[|items| - 1];
      if Resolves(it, profiles) {
        UpsertSpec(MarkAll(rows, session, init, profiles, marker), RowOf(session, it, marker));
      }
    }
  }

  /** The last processed entry for a student decides that student's row. */
  lemma {:induction false} MarkAllLastWins(rows: seq<Attendance>, session: nat, items: seq<MarkItem>, profiles: set<nat>, marker: UserId, i: nat)
    requires KeysUnique(rows)
    requires i < |items| && Resolves(items[i], profiles)
    requires forall j :: i < j < |items| && Resolves(items[j], profiles) ==> items[j].studentId != items[i].studentId
    ensures RowOf(session, items[i], marker) in MarkAll(rows, session, items, profiles, marker)
    ensures forall b :: b in MarkAll(rows, session, items, profiles, marker) && AttendanceKey(b) == (session, items[i].studentId.value)
               ==> b == RowOf(session, items[i], marker)
    decreases |items|
  {
    var init := items[..|items| - 1];
    var it := items[|items| - 1];
    MarkAllSpec(rows, session, init, profiles, marker);
    var done := MarkAll(rows, session, init, profiles, marker);
    if i == |items| - 1 {
      UpsertSpec(done, RowOf(session, it, marker));
    } else {
      MarkAllLastWins(rows, session, init, profiles, marker, i);
      if Resolves(it, profiles) {
        UpsertSpec(done, RowOf(session, it, marker));
      }
    }
  }

  // ---------------------------------------------------------------------
  // Session creation

  /** The typed values the session serializer yields when it is valid. */
  datatype SessionFields = SessionFields(date: Date, startTime: int, endTime: int, topic: Option<string>)

  /** A `create_attendance_session` body: the group id and the serializer's outcome (`None`: invalid). */
  datatype SessionForm = SessionForm(courseGroup: Option<nat>, parsed: Option<SessionFields>, errors: seq<FieldError>)

  /** The checks of `create_attendance_session` up to the serializer, in order. */
  function SessionCheck(user: User, campus: Campus, form: SessionForm): (r: Result<(CourseGroup, Schedule, SessionFields)>)
    ensures user.rol != Docente ==> r == Err(Forbidden(TeachersOnlyCreate))
    ensures user.rol == Docente && !Given(form.courseGroup) ==> r == Err(BadRequest(GroupRequired))
    ensures (user.rol == Docente && Given(form.courseGroup) && FindById(campus.groups, GroupId, form.courseGroup.value).None?)
            ==> r == Err(ServerError)
    ensures (user.rol == Docente && Given(form.courseGroup) && FindById(campus.groups, GroupId, form.courseGroup.value).Some?
             && !OwnedBy(FindById(campus.groups, GroupId, form.courseGroup.value).value, user)) ==> r == Err(Forbidden(NoGroupAccess))
    ensures r.Ok? ==>
      && user.rol == Docente && r.value.0 in campus.groups && OwnedBy(r.value.0, user)
      && Some(r.value.1) == FirstSchedule(campus.schedules, r.value.0.id)
      && Some(r.value.2) == form.parsed
    ensures r.Err? && r.failure == BadRequest(NoSchedule) ==>
      forall s :: s in campus.schedules ==> s.group != form.courseGroup.value
    ensures (user.rol == Docente && Given(form.courseGroup) && FindById(campus.groups, GroupId, form.courseGroup.value).Some?
             && OwnedBy(FindById(campus.groups, GroupId, form.courseGroup.value).value, user)) ==>
      var g := FindById(campus.groups, GroupId, form.courseGroup.value).value;
      && (FirstSchedule(campus.schedules, g.id).None? ==> r == Err(BadRequest(NoSchedule)))
      && (FirstSchedule(campus.schedules, g.id).Some? && form.parsed.None? ==> r == Err(FieldErrors(form.errors)))
      && (FirstSchedule(campus.schedules, g.id).Some? && form.parsed.Some? ==>
            r == Ok((g, FirstSchedule(campus.schedules, g.id).value, form.parsed.value)))
  {
    if user.rol != Docente then Err(Forbidden(TeachersOnlyCreate))
    else if !Given(form.courseGroup) then Err(BadRequest(GroupRequired))
    else match FindById(campus.groups, GroupId, form.courseGroup.value)
      case None => Err(ServerError)
      case Some(g) =>
        if !OwnedBy(g, user) then Err(Forbidden(NoGroupAccess))
        else match FirstSchedule(campus.schedules, g.id)
          case None => Err(BadRequest(NoSchedule))
          case Some(sc) =>
            match form.parsed
            case None => Err(FieldErrors(form.errors))
            case Some(f) => Ok((g, sc, f))
  }

  /**
   `create_attendance_session` as written: the session serializer declares
   `schedule` as a read-only method field, so the schedule id the handler puts
   into the data never reaches `save()`, and inserting a session without its
   required schedule raises, which the handler turns into a 500.
   */
  function CreateSessionAsWritten(user: User, campus: Campus, form: SessionForm): (r: Result<AttendanceSession>)
    ensures r.Err?
    ensures SessionCheck(user, campus, form).Err? ==> r.failure == SessionCheck(user, campus, form).failure
    ensures SessionCheck(user, campus, form).Ok? ==> r == Err(ServerError)
  {
    match SessionCheck(user, campus, form)
    case Err(f) => Err(f)
    case Ok(_) => Err(ServerError)
  }

  // ---------------------------------------------------------------------
  // The attendance store

  class AttendanceBook {
    var sessions: seq<AttendanceSession>
    var rows: seq<Attendance>
    var nextSessionId: nat

    /** Ids and unique keys of sessions, one row per (session, student), and every row names a session. */
    ghost predicate Valid()
      reads this
    {
      && (forall i :: 0 <= i < |sessions| ==> sessions[i].id < nextSessionId)
      && (forall i, j :: 0 <= i < j < |sessions| ==> sessions[i].id != sessions[j].id)
      && (forall i, j :: 0 <= i < j < |sessions| ==> SessionKey(sessions[i]) != SessionKey(sessions[j]))
      && KeysUnique(rows)
      && RowsResolve(sessions, rows)
    }

    constructor ()
      ensures Valid() && sessions == [] && rows == [] && nextSessionId == 1
    {
      sessions, rows, nextSessionId := [], [], 1;
    }

    /**
     `create_attendance_session` with the schedule stored: the group's first
     schedule is used, and a second session for the same group, schedule and
     date is refused by the unique-together check.
     */
    method CreateSession(user: User, campus: Campus, form: SessionForm) returns (r: Result<AttendanceSession>)
      requires Valid()
      modifies this`sessions, this`nextSessionId
      ensures Valid()
      ensures SessionCheck(user, campus, form).Err? ==> r == Err(SessionCheck(user, campus, form).failure)
      ensures SessionCheck(user, campus, form).Ok? ==>
        var (g, sc, f) := SessionCheck(user, campus, form).value;
        if exists s :: s in old(sessions) && SessionKey(s) == (g.id, sc.id, f.date)
        then r == Err(FieldErrors([FieldError("non_field_errors", UniqueSession)]))
        else r == Ok(AttendanceSession(old(nextSessionId), g.id, sc.id, f.date, f.startTime, f.endTime, f.topic))
      ensures r.Err? ==> sessions == old(sessions) && nextSessionId == old(nextSessionId)
      ensures r.Ok? ==> sessions == old(sessions) + [r.value] && nextSessionId == old(nextSessionId) + 1
    {
      var check := SessionCheck(user, campus, form);
      if check.Err? {
        return Err(check.failure);
      }
      var (g, sc, f) := check.value;
      if exists s :: s in sessions && SessionKey(s) == (g.id, sc.id, f.date) {
        return Err(FieldErrors([FieldError("non_field_errors", UniqueSession)]));
      }
      var session := AttendanceSession(nextSessionId, g.id, sc.id, f.date, f.startTime, f.endTime, f.topic);
      forall b | b in rows ensures FindById(sessions + [session], SessionId, b.session).Some? {
        FindByIdAppend(sessions, SessionId, session, b.session);
      }
      sessions := sessions + [session];
      nextSessionId := nextSessionId + 1;
      return Ok(session);
    }

    /**
     `teacher_attendance_sessions`: the sessions of the caller's own groups,
     latest date first.
     */
    function TeacherSessions(user: User, campus: Campus): (r: Result<seq<AttendanceSession>>)
      reads this
      ensures user.rol != Docente ==> r == Err(Forbidden(TeachersOnly))
      ensures user.rol == Docente ==> r.Ok?
      ensures r.Ok? ==> SortedBy(r.value, KeyDesc((s: AttendanceSession) => s.date))
      ensures r.Ok? ==> forall i :: 0 <= i < |r.value| ==> r.value[i] in sessions && r.value[i].group in OwnedGroups(campus, user.id)
      ensures r.Ok? ==> forall s :: s in sessions && s.group in OwnedGroups(campus, user.id) ==> s in r.value
    {
      if user.rol != Docente then Err(Forbidden(TeachersOnly))
      else
        var owned := OwnedGroups(campus, user.id);
        var mine := Filter(sessions, (s: AttendanceSession) => s.group in owned);
        KeyOrdersArePreorders((s: AttendanceSession) => s.date);
        SortSpec(mine, KeyDesc((s: AttendanceSession) => s.date));
        assert forall s :: s in sessions && s.group in owned ==> s in mine;
        Ok(Sort(mine, KeyDesc((s: AttendanceSession) => s.date)))
    }

    /** The checks of `mark_attendance` before the loop, in order; the session on success. */
    function MarkCheck(user: User, campus: Campus, form: MarkForm): (r: Result<AttendanceSession>)
      reads this
      ensures user.rol != Docente ==> r == Err(Forbidden(TeachersOnlyMark))
      ensures user.rol == Docente && !Given(form.sessionId) ==> r == Err(BadRequest(SessionRequired))
      ensures user.rol == Docente && Given(form.sessionId) && form.items == [] ==> r == Err(BadRequest(AttendancesRequired))
      ensures (user.rol == Docente && Given(form.sessionId) && form.items != [] && FindById(sessions, SessionId, form.sessionId.value).None?)
              ==> r == Err(ServerError)
      ensures r.Ok? ==> Some(r.value) == FindById(sessions, SessionId, form.sessionId.value) && form.items != []
      ensures r.Ok? ==> exists g :: g in campus.groups && g.id == r.value.group && OwnedBy(g, user)
      ensures (user.rol == Docente && Given(form.sessionId) && form.items != [] && FindById(sessions, SessionId, form.sessionId.value).Some?
               && FindById(campus.groups, GroupId, FindById(sessions, SessionId, form.sessionId.value).value.group).Some?
               && !OwnedBy(FindById(campus.groups, GroupId, FindById(sessions, SessionId, form.sessionId.value).value.group).value, user))
              ==> r == Err(Forbidden(NoSessionAccess))
      ensures (user.rol == Docente && Given(form.sessionId) && form.items != [] && FindById(sessions, SessionId, form.sessionId.value).Some?
               && FindById(campus.groups, GroupId, FindById(sessions, SessionId, form.sessionId.value).value.group).Some?
               && OwnedBy(FindById(campus.groups, GroupId, FindById(sessions, SessionId, form.sessionId.value).value.group).value, user))
              ==> r == Ok(FindById(sessions, SessionId, form.sessionId.value).value)
    {
      if user.rol != Docente then Err(Forbidden(TeachersOnlyMark))
      else if !Given(form.sessionId) then Err(BadRequest(SessionRequired))
      else if form.items == [] then Err(BadRequest(AttendancesRequired))
      else match FindById(sessions, SessionId, form.sessionId.value)
        case None => Err(ServerError)
        case Some(s) =>
          match FindById(campus.groups, GroupId, s.group)
          case None => Err(ServerError)
          case Some(g) => if !OwnedBy(g, user) then Err(Forbidden(NoSessionAccess)) else Ok(s)
    }

    /**
     `mark_attendance`: every entry whose student resolves and that carries a
     status is upserted, marked by the caller; other entries are skipped. The
     response lists the processed rows in input order. A rejected request
     writes nothing.
     */
    method MarkAttendance(user: User, campus: Campus, profiles: set<nat>, form: MarkForm) returns (r: Result<seq<Attendance>>)
      requires Valid()
      modifies this`rows
      ensures Valid()
      ensures MarkCheck(user, campus, form).Err? ==> r == Err(MarkCheck(user, campus, form).failure) && rows == old(rows)
      ensures MarkCheck(user, campus, form).Ok? ==>
        var s := MarkCheck(user, campus, form).value.id;
        && r == Ok(Processed(s, form.items, profiles, user.id))
        && rows == MarkAll(old(rows), s, form.items, profiles, user.id)
    {
      var check := MarkCheck(user, campus, form);
      if check.Err? {
        return Err(check.failure);
      }
      var s := check.value.id;
      var items := form.items;
      var out: seq<Attendance> := [];
      var i := 0;
      while i < |items|
        invariant 0 <= i <= |items|
        invariant rows == MarkAll(old(rows), s, items[..i], profiles, user.id)
        invariant out == Processed(s, items[..i], profiles, user.id)
        invariant KeysUnique(rows)
        invariant RowsResolve(sessions, rows)
      {
        assert items[..i + 1][..i] == items[..i];
        var it := items[i];
        if Resolves(it, profiles) {
          var a := RowOf(s, it, user.id);
          UpsertSpec(rows, a);
          UpsertResolves(sessions, rows, a);
          rows := Upsert(rows, a);
          out := out + [a];
        }
        i := i + 1;
      }
      assert items[..|items|] == items;
      return Ok(out);
    }

    /**
     `teacher_attendance_stats`: the rate over every row of the caller's
     groups, the number of their sessions, and per group (in storage order)
     its rate and active enrollments.
     */
    method TeacherAttendanceStats(user: User, campus: Campus) returns (r: Result<TeacherStats>)
      ensures user.rol != Docente ==> r == Err(Forbidden(TeachersOnly))
      ensures user.rol == Docente ==> r.Ok?
      ensures r.Ok? ==>
        var owned := GroupsOf(campus, user.id);
        var ids := OwnedGroups(campus, user.id);
        var all := RowsInGroups(sessions, rows, ids);
        && r.value.totalGroups == |owned|
        && r.value.totalSessions == Count(sessions, (s: AttendanceSession) => s.group in ids)
        && r.value.averageAttendance == Rate(CountStatus(all, Present), |all|)
        && |r.value.groupStats| == |owned|
        && forall i :: 0 <= i < |owned| ==>
             var mine := RowsInGroups(sessions, rows, {owned[i].id});
             && r.value.groupStats[i].group == owned[i]
             && r.value.groupStats[i].attendanceRate == Rate(CountStatus(mine, Present), |mine|)
             && r.value.groupStats[i].enrolledStudents == ActiveEnrollments(campus, owned[i].id)
    {
      if user.rol != Docente {
        return Err(Forbidden(TeachersOnly));
      }
      var owned := GroupsOf(campus, user.id);
      var ids := OwnedGroups(campus, user.id);
      var all := RowsInGroups(sessions, rows, ids);
      var stats: seq<GroupStat> := [];
      var i := 0;
      while i < |owned|
        invariant 0 <= i <= |owned|
        invariant |stats| == i
        invariant forall j :: 0 <= j < i ==>
          var mine := RowsInGroups(sessions, rows, {owned[j].id});
          && stats[j].group == owned[j]
          && stats[j].attendanceRate == Rate(CountStatus(mine, Present), |mine|)
          && stats[j].enrolledStudents == ActiveEnrollments(campus, owned[j].id)
      {
        var g := owned[i];
        var mine := RowsInGroups(sessions, rows, {g.id});
        stats := stats + [GroupStat(g, Rate(CountStatus(mine, Present), |mine|), ActiveEnrollments(campus, g.id))];
        i := i + 1;
      }
      var average := Rate(CountStatus(all, Present), |all|);
      var totalSessions := Count(sessions, (s: AttendanceSession) => s.group in ids);
      return Ok(TeacherStats(average, totalSessions, |owned|, stats));
    }
  }

  /**
   The groups a teacher's stats cover are exactly the stored groups that
   teacher teaches, each as often as stored and in storage order.
   */
  lemma GroupsOfSpec(c: Campus, teacher: UserId)
    ensures forall i :: 0 <= i < |GroupsOf(c, teacher)| ==>
      GroupsOf(c, teacher)[i] in c.groups && GroupsOf(c, teacher)[i].id in OwnedGroups(c, teacher)
    ensures forall g :: g in c.groups && g.teacherUser == teacher ==>
      multiset(GroupsOf(c, teacher))[g] == multiset(c.groups)[g]
    ensures IsSubsequence(GroupsOf(c, teacher), c.groups)
  {
    var owns := (g: CourseGroup) => g.teacherUser == teacher;
    FilterMultiplicity(c.groups, owns);
    FilterSubsequence(c.groups, owns);
  }
}
