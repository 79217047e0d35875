/**
 Course groups, enrollments, weekly schedules and grades, with the grade
 percentage and validation rules. `Campus` bundles the tables the course,
 task and attendance handlers read without changing them.
 */
module CourseModels {
  import opened Common
  import opened UserModels

  /** `Schedule.DAYS_OF_WEEK`: 0 is Monday (Lunes), 6 is Sunday (Domingo). */
  type DayOfWeek = d: int | 0 <= d <= 6

  /** A time of day in seconds after midnight. */
  type TimeOfDay = t: int | 0 <= t < 86400

  datatype Course = Course(id: nat, name: string, isActive: bool)

  datatype CourseGroup = CourseGroup(
    id: nat, course: nat, courseName: string, period: nat, name: string, teacherUser: UserId)

  /** `student` is a student-profile id. */
  datatype Enrollment = Enrollment(id: nat, student: nat, group: nat, enrollmentDate: Date, isActive: bool)

  datatype Schedule = Schedule(
    id: nat, group: nat, dayOfWeek: DayOfWeek, startTime: TimeOfDay, endTime: TimeOfDay, subject: string)

  datatype Grade = Grade(id: nat, enrollment: nat, subject: string, obtainedScore: real, maxScore: real, date: Date)

  /** `course_group.teacher.user == request.user`. */
  predicate OwnedBy(g: CourseGroup, u: User) {
    g.teacherUser == u.id
  }

  /** The read-only tables, in storage order. */
  datatype Campus = Campus(
    courses: seq<Course>,
    groups: seq<CourseGroup>,
    enrollments: seq<Enrollment>,
    schedules: seq<Schedule>,
    grades: seq<Grade>)
  {
    /** Primary keys and the unique-together keys of the three tables. */
    ghost predicate Valid() {
      && (forall i, j :: 0 <= i < j < |groups| ==> groups[i].id != groups[j].id)
      && (forall i, j :: 0 <= i < j < |groups| ==> GroupKey(groups[i]) != GroupKey(groups[j]))
      && (forall i, j :: 0 <= i < j < |enrollments| ==> enrollments[i].id != enrollments[j].id)
      && (forall i, j :: 0 <= i < j < |enrollments| ==> EnrollmentKey(enrollments[i]) != EnrollmentKey(enrollments[j]))
      && (forall i, j :: 0 <= i < j < |schedules| ==> schedules[i].id != schedules[j].id)
      && (forall i, j :: 0 <= i < j < |schedules| ==> ScheduleKey(schedules[i]) != ScheduleKey(schedules[j]))
    }
  }

  /** A group's primary key, the key `CourseGroup.objects.get(id=id)` looks up by. */
  function GroupId(g: CourseGroup): nat { g.id }

  /** `Schedule.objects.filter(course_group=g).first()`: the group's schedule with the smallest id. */
  function FirstSchedule(schedules: seq<Schedule>, group: nat): (r: Option<Schedule>)
    ensures r.None? <==> forall s :: s in schedules ==> s.group != group
    ensures r.Some? ==> r.value in schedules && r.value.group == group
    ensures r.Some? ==> forall s :: s in schedules && s.group == group ==> r.value.id <= s.id
  {
    if schedules == [] then None
    else
      var rest := FirstSchedule(schedules[1..], group);
      var s := schedules[0];
      if s.group != group then rest
      else if rest.Some? && rest.value.id < s.id then rest
      else Some(s)
  }

  /** A schedule's primary key, the key `Schedule.objects.get(id=id)` looks up by. */
  function ScheduleId(s: Schedule): nat { s.id }

  /** `Enrollment.objects.filter(student=s, course_group=g, is_active=True).exists()`. */
  predicate ActivelyEnrolled(c: Campus, student: nat, group: nat) {
    exists e :: e in c.enrollments && e.student == student && e.group == group && e.isActive
  }

  /** The groups of a student's active enrollments. */
  function ActiveGroups(c: Campus, student: nat): (r: set<nat>)
    ensures forall g :: g in r <==> ActivelyEnrolled(c, student, g)
  {
    set e | e in c.enrollments && e.student == student && e.isActive :: e.group
  }

  /** The ids of the groups a teacher user teaches. */
  function OwnedGroups(c: Campus, teacher: UserId): (r: set<nat>)
    ensures forall id :: id in r <==> exists g :: g in c.groups && g.id == id && g.teacherUser == teacher
  {
    set g | g in c.groups && g.teacherUser == teacher :: g.id
  }

  /** `CourseGroup.Meta.unique_together`. */
  function GroupKey(g: CourseGroup): (nat, nat, string) {
    (g.course, g.period, g.name)
  }

  /** `Enrollment.Meta.unique_together`. */
  function EnrollmentKey(e: Enrollment): (nat, nat) {
    (e.student, e.group)
  }

  /** `Schedule.Meta.unique_together`. */
  function ScheduleKey(s: Schedule): (nat, DayOfWeek, TimeOfDay) {
    (s.group, s.dayOfWeek, s.startTime)
  }

  /** `Grade.percentage`: guarded by the truthiness of `max_score` and by `max_score > 0`. */
  function GradePercentage(g: Grade): (r: real)
    ensures g.maxScore > 0.0 ==> r * g.maxScore == g.obtainedScore * 100.0
    ensures g.maxScore <= 0.0 ==> r == 0.0
  {
    if g.maxScore != 0.0 && g.maxScore > 0.0 then g.obtainedScore / g.maxScore * 100.0 else 0.0
  }

  /** `Grade.clean`: rejects only when both scores are non-zero and the obtained score is larger. */
  predicate GradeClean(g: Grade) {
    !(g.obtainedScore != 0.0 && g.maxScore != 0.0 && g.obtainedScore > g.maxScore)
  }

  /** What `Grade.clean` accepts, by the sign of the maximum. */
  lemma GradeCleanCases(g: Grade)
    ensures g.maxScore > 0.0 ==> (GradeClean(g) <==> g.obtainedScore <= g.maxScore)
    ensures g.maxScore == 0.0 ==> GradeClean(g)
    ensures g.maxScore < 0.0 ==> (GradeClean(g) <==> g.obtainedScore <= g.maxScore || g.obtainedScore == 0.0)
  {
  }

  /** A clean grade with a positive maximum and a non-negative score lies in [0, 100]. */
  lemma {:induction false} GradePercentageBounded(g: Grade)
    requires GradeClean(g) && g.maxScore > 0.0 && g.obtainedScore >= 0.0
    ensures 0.0 <= GradePercentage(g) <= 100.0
  {
    var q := g.obtainedScore / g.maxScore;
    assert q * g.maxScore == g.obtainedScore;
    assert q <= 1.0 by {
      assert g.obtainedScore <= g.maxScore;
    }
    assert GradePercentage(g) == q * 100.0;
  }

  /** A zero maximum disables the check: any score passes, and the percentage is 0. */
  lemma ZeroMaxSkipsGradeCheck(g: Grade)
    requires g.maxScore == 0.0
    ensures GradeClean(g) && GradePercentage(g) == 0.0
  {
  }
}
