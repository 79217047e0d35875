/**
 The student's course endpoints: the list of active enrollments, and the
 grades, weekly schedule and full detail of one of the student's own
 enrollments. All four only read the campus tables.
 */
module CourseViews {
  import opened Common
  import opened Sorting
  import opened UserModels
  import opened CourseModels

  const StudentsOnly := "Solo estudiantes pueden acceder"
  const StudentProfileMissing := "Perfil de estudiante no encontrado. Contacta al administrador."
  const NoEnrollmentsMessage := "No tienes cursos matriculados actualmente"

  /** The two shapes of the enrollment list: a message with an empty list, or the bare list. */
  datatype EnrollmentList = NoEnrollments(message: string) | Enrollments(items: seq<Enrollment>)

  /** The student's active enrollments, in table order. */
  function ActiveEnrollmentsOf(enrollments: seq<Enrollment>, student: nat): seq<Enrollment> {
    Filter(enrollments, (e: Enrollment) => e.student == student && e.isActive)
  }

  /** `student_enrollments`. */
  function StudentEnrollments(user: User, c: Campus): (r: Result<EnrollmentList>)
    ensures user.rol != Estudiante ==> r == Err(Forbidden(StudentsOnly))
    ensures user.rol == Estudiante && user.studentProfile.None? ==> r == Err(ProfileMissing(StudentProfileMissing))
    ensures user.rol == Estudiante && user.studentProfile.Some? ==> r.Ok?
    ensures r.Ok? && r.value.NoEnrollments? ==> (
      r.value.message == NoEnrollmentsMessage
      && forall e :: e in c.enrollments ==> !(e.student == user.studentProfile.value.id && e.isActive))
    ensures r.Ok? && r.value.Enrollments? ==> (
      r.value.items != []
      && (forall i :: 0 <= i < |r.value.items| ==> (
            r.value.items[i] in c.enrollments
            && r.value.items[i].student == user.studentProfile.value.id && r.value.items[i].isActive))
      && (forall e :: e in c.enrollments && e.student == user.studentProfile.value.id && e.isActive ==> e in r.value.items))
  {
    if user.rol != Estudiante then Err(Forbidden(StudentsOnly))
    else if user.studentProfile.None? then Err(ProfileMissing(StudentProfileMissing))
    else
      var student := user.studentProfile.value.id;
      var mine := ActiveEnrollmentsOf(c.enrollments, student);
      if mine == [] then
        forall e | e in c.enrollments ensures !(e.student == student && e.isActive) {
          var i :| 0 <= i < |c.enrollments| && c.enrollments[i] == e;
        }
        Ok(NoEnrollments(NoEnrollmentsMessage))
      else
        forall e | e in c.enrollments && e.student == student && e.isActive ensures e in mine {
          var i :| 0 <= i < |c.enrollments| && c.enrollments[i] == e;
        }
        Ok(Enrollments(mine))
  }

  /** `get_object_or_404(Enrollment, id=..., student=...)`: the enrollment only if it is that student's. */
  function OwnEnrollment(enrollments: seq<Enrollment>, id: nat, student: nat): (r: Option<Enrollment>)
    ensures r.Some? ==> r.value in enrollments && r.value.id == id && r.value.student == student
    ensures r.None? <==> forall e :: e in enrollments ==> !(e.id == id && e.student == student)
  {
    if enrollments == [] then None
    else if enrollments[0].id == id && enrollments[0].student == student then Some(enrollments[0])
    else OwnEnrollment(enrollments[1..], id, student)
  }

  /** With unique ids, another student's enrollment id is not found. */
  lemma OtherStudentsEnrollmentNotFound(c: Campus, id: nat, student: nat, k: nat)
    requires c.Valid()
    requires 0 <= k < |c.enrollments| && c.enrollments[k].id == id && c.enrollments[k].student != student
    ensures OwnEnrollment(c.enrollments, id, student).None?
  {
    forall e | e in c.enrollments ensures !(e.id == id && e.student == student) {
      var i :| 0 <= i < |c.enrollments| && c.enrollments[i] == e;
      if i != k {
        assert c.enrollments[i].id != c.enrollments[k].id || i == k;
      }
    }
  }

  /**
   The lookup the three per-enrollment endpoints share: students only, then
   the caller's own enrollment. It runs outside any error handler, so a
   student user without a profile is a 500.
   */
  function EnrollmentFor(user: User, c: Campus, id: nat): (r: Result<Enrollment>)
    ensures user.rol != Estudiante ==> r == Err(Forbidden(StudentsOnly))
    ensures user.rol == Estudiante && user.studentProfile.None? ==> r == Err(ServerError)
    ensures user.rol == Estudiante && user.studentProfile.Some? ==>
      (r.Ok? <==> OwnEnrollment(c.enrollments, id, user.studentProfile.value.id).Some?)
      && (r.Err? ==> r == Err(NotFound))
    ensures r.Ok? ==> r.value in c.enrollments && r.value.id == id && r.value.student == user.studentProfile.value.id
  {
    if user.rol != Estudiante then Err(Forbidden(StudentsOnly))
    else if user.studentProfile.None? then Err(ServerError)
    else match OwnEnrollment(c.enrollments, id, user.studentProfile.value.id)
      case None => Err(NotFound)
      case Some(e) => Ok(e)
  }

  /** `order_by('-date')`. */
  function LatestFirst(): (Grade, Grade) -> bool {
    KeyDesc((g: Grade) => g.date)
  }

  /** `order_by('day_of_week', 'start_time')`, as one key: a start time is below one day. */
  function WeekOrder(): (Schedule, Schedule) -> bool {
    KeyAsc((s: Schedule) => s.dayOfWeek * SecondsPerDay + s.startTime)
  }

  /** The single key orders by day first, then by start time. */
  lemma WeekOrderIsLexicographic(a: Schedule, b: Schedule)
    ensures WeekOrder()(a, b) <==> a.dayOfWeek < b.dayOfWeek || (a.dayOfWeek == b.dayOfWeek && a.startTime <= b.startTime)
  {
    if a.dayOfWeek < b.dayOfWeek {
      assert a.dayOfWeek * SecondsPerDay + a.startTime < (a.dayOfWeek + 1) * SecondsPerDay <= b.dayOfWeek * SecondsPerDay;
    } else if a.dayOfWeek > b.dayOfWeek {
      assert b.dayOfWeek * SecondsPerDay + b.startTime < (b.dayOfWeek + 1) * SecondsPerDay <= a.dayOfWeek * SecondsPerDay;
    }
  }

  function GradesOf(c: Campus, enrollment: nat): seq<Grade> {
    Sort(Filter(c.grades, (g: Grade) => g.enrollment == enrollment), LatestFirst())
  }

  function SchedulesOf(c: Campus, group: nat): seq<Schedule> {
    Sort(Filter(c.schedules, (s: Schedule) => s.group == group), WeekOrder())
  }

  /** The grades of one enrollment, latest first, and nothing else. */
  lemma GradesOfSpec(c: Campus, enrollment: nat)
    ensures SortedBy(GradesOf(c, enrollment), LatestFirst())
    ensures forall i :: 0 <= i < |GradesOf(c, enrollment)| ==>
      GradesOf(c, enrollment)[i] in c.grades && GradesOf(c, enrollment)[i].enrollment == enrollment
    ensures forall g :: g in c.grades && g.enrollment == enrollment ==> g in GradesOf(c, enrollment)
  {
    var f := Filter(c.grades, (g: Grade) => g.enrollment == enrollment);
    KeyOrdersArePreorders((g: Grade) => g.date);
    SortSpec(f, LatestFirst());
    forall g | g in c.grades && g.enrollment == enrollment ensures g in GradesOf(c, enrollment) {
      var i :| 0 <= i < |c.grades| && c.grades[i] == g;
      var j :| 0 <= j < |f| && f[j] == g;
    }
  }

  /** The schedules of one group, in week order, and nothing else. */
  lemma SchedulesOfSpec(c: Campus, group: nat)
    ensures SortedBy(SchedulesOf(c, group), WeekOrder())
    ensures forall i :: 0 <= i < |SchedulesOf(c, group)| ==>
      SchedulesOf(c, group)[i] in c.schedules && SchedulesOf(c, group)[i].group == group
    ensures forall s :: s in c.schedules && s.group == group ==> s in SchedulesOf(c, group)
  {
    var f := Filter(c.schedules, (s: Schedule) => s.group == group);
    KeyOrdersArePreorders((s: Schedule) => s.dayOfWeek * SecondsPerDay + s.startTime);
    SortSpec(f, WeekOrder());
    forall s | s in c.schedules && s.group == group ensures s in SchedulesOf(c, group) {
      var i :| 0 <= i < |c.schedules| && c.schedules[i] == s;
      var j :| 0 <= j < |f| && f[j] == s;
    }
  }

  /** `student_grades`. */
  function StudentGrades(user: User, c: Campus, id: nat): (r: Result<seq<Grade>>)
    ensures EnrollmentFor(user, c, id).Err? ==> r == Err(EnrollmentFor(user, c, id).failure)
    ensures r.Ok? ==> EnrollmentFor(user, c, id).Ok? && r.value == GradesOf(c, EnrollmentFor(user, c, id).value.id)
    ensures EnrollmentFor(user, c, id).Ok? ==> r == Ok(GradesOf(c, EnrollmentFor(user, c, id).value.id))
  {
    match EnrollmentFor(user, c, id)
    case Err(failure) => Err(failure)
    case Ok(e) => Ok(GradesOf(c, e.id))
  }

  /** `course_schedules`. */
  function CourseSchedules(user: User, c: Campus, id: nat): (r: Result<seq<Schedule>>)
    ensures EnrollmentFor(user, c, id).Err? ==> r == Err(EnrollmentFor(user, c, id).failure)
    ensures r.Ok? ==> EnrollmentFor(user, c, id).Ok? && r.value == SchedulesOf(c, EnrollmentFor(user, c, id).value.group)
    ensures EnrollmentFor(user, c, id).Ok? ==> r == Ok(SchedulesOf(c, EnrollmentFor(user, c, id).value.group))
  {
    match EnrollmentFor(user, c, id)
    case Err(failure) => Err(failure)
    case Ok(e) => Ok(SchedulesOf(c, e.group))
  }

  datatype CourseDetail = CourseDetail(group: CourseGroup, schedules: seq<Schedule>, grades: seq<Grade>, enrollment: Enrollment)

  /** `course_detail`: the enrollment's group, its schedules and grades, and the enrollment. */
  function CourseDetailOf(user: User, c: Campus, id: nat): (r: Result<CourseDetail>)
    ensures EnrollmentFor(user, c, id).Err? ==> r == Err(EnrollmentFor(user, c, id).failure)
    ensures r.Ok? ==> (
      EnrollmentFor(user, c, id).Ok?
      && var e := EnrollmentFor(user, c, id).value;
         FindById(c.groups, GroupId, e.group).Some?
         && r.value == CourseDetail(FindById(c.groups, GroupId, e.group).value, SchedulesOf(c, e.group), GradesOf(c, e.id), e))
    ensures EnrollmentFor(user, c, id).Ok? && FindById(c.groups, GroupId, EnrollmentFor(user, c, id).value.group).Some? ==> r.Ok?
  {
    match EnrollmentFor(user, c, id)
    case Err(failure) => Err(failure)
    case Ok(e) =>
      match FindById(c.groups, GroupId, e.group)
      case None => Err(ServerError)
      case Some(g) => Ok(CourseDetail(g, SchedulesOf(c, e.group), GradesOf(c, e.id), e))
  }
}
