/**
 The administrator dashboard: system-wide counts, the recent-activity feed
 and the global attendance rates with their seven-day trend.

 The feed's source rows are the joined rows its three queries select
 (the related course, teacher and author names already resolved), each with
 the ISO-8601 text its timestamp renders to.
 */
module AdminViews {
  import opened Common
  import opened Sorting
  import opened UserModels
  import opened CourseModels
  import opened TaskModels
  import opened NewsModels
  import opened AttendanceModels
  import opened AttendanceViews

  const AdminsOnly := "Solo administradores pueden acceder"

  const Week := 7 * SecondsPerDay

  // ---------------------------------------------------------------------
  // system_stats

  datatype SystemStats = SystemStats(
    totalStudents: nat, totalTeachers: nat, totalCourses: nat,
    activeEnrollments: nat, totalNews: nat, pendingTasks: nat)

  predicate ActiveWithRole(u: User, r: Role) {
    u.rol == r && u.isActive
  }

  /** `system_stats`: one count per table and predicate. */
  function SystemStatsOf(user: User, users: seq<User>, campus: Campus, news: seq<News>, tasks: seq<Task>): (r: Result<SystemStats>)
    ensures user.rol != Admin ==> r == Err(Forbidden(AdminsOnly))
    ensures user.rol == Admin ==> r.Ok?
    ensures r.Ok? ==>
      && r.value.totalStudents == Count(users, (u: User) => ActiveWithRole(u, Estudiante))
      && r.value.totalTeachers == Count(users, (u: User) => ActiveWithRole(u, Docente))
      && r.value.totalCourses == Count(campus.courses, (c: Course) => c.isActive)
      && r.value.activeEnrollments == Count(campus.enrollments, (e: Enrollment) => e.isActive)
      && r.value.totalNews == Count(news, (n: News) => n.isPublished)
      && r.value.pendingTasks == Count(tasks, (t: Task) => t.isActive)
    ensures r.Ok? ==> r.value.totalStudents + r.value.totalTeachers <= |users|
  {
    if user.rol != Admin then Err(Forbidden(AdminsOnly))
    else
      ActiveUsersByRole(users);
      Ok(SystemStats(
        Count(users, (u: User) => ActiveWithRole(u, Estudiante)),
        Count(users, (u: User) => ActiveWithRole(u, Docente)),
        Count(campus.courses, (c: Course) => c.isActive),
        Count(campus.enrollments, (e: Enrollment) => e.isActive),
        Count(news, (n: News) => n.isPublished),
        Count(tasks, (t: Task) => t.isActive)))
  }

  /** Every user is an active student, an active teacher, an active administrator or inactive. */
  lemma {:induction false} ActiveUsersByRole(users: seq<User>)
    ensures |users| == Count(users, (u: User) => ActiveWithRole(u, Estudiante))
                     + Count(users, (u: User) => ActiveWithRole(u, Docente))
                     + Count(users, (u: User) => ActiveWithRole(u, Admin))
                     + Count(users, (u: User) => !u.isActive)
  {
    if users != [] {
      ActiveUsersByRole(users[1..]);
    }
  }

  // ---------------------------------------------------------------------
  // recent_activities

  datatype EnrollmentEvent = EnrollmentEvent(date: Date, stamp: string, courseName: string, studentName: string)

  datatype TaskEvent = TaskEvent(createdAt: Time, stamp: string, title: string, teacherName: string)

  datatype NewsEvent = NewsEvent(createdAt: Time, isPublished: bool, stamp: string, title: string, authorName: string)

  datatype ActivityKind = EnrollmentKind | TaskCreatedKind | NewsPublishedKind

  datatype Activity = Activity(kind: ActivityKind, description: string, stamp: string, user: string)

  function FromEnrollment(e: EnrollmentEvent): (a: Activity)
    ensures a.kind == EnrollmentKind && a.stamp == e.stamp
  {
    Activity(EnrollmentKind, "Nuevo estudiante matriculado en " + e.courseName, e.stamp, e.studentName)
  }

  function FromTask(t: TaskEvent): (a: Activity)
    ensures a.kind == TaskCreatedKind && a.stamp == t.stamp
  {
    Activity(TaskCreatedKind, "Tarea creada: " + t.title, t.stamp, "Prof. " + t.teacherName)
  }

  function FromNews(n: NewsEvent): (a: Activity)
    ensures a.kind == NewsPublishedKind && a.stamp == n.stamp
  {
    Activity(NewsPublishedKind, "Nueva noticia publicada: " + n.title, n.stamp, n.authorName)
  }

  /** `qs[:n]` and `list[:n]`. */
  function Take<T>(s: seq<T>, n: nat): (r: seq<T>)
    ensures |r| <= n && r <= s
    ensures |s| <= n ==> r == s
  {
    if |s| <= n then s else s[..n]
  }

  /** Enrollments dated on or after the day one week before `now`, newest first, at most 5. */
  function RecentEnrollments(now: Time, es: seq<EnrollmentEvent>): seq<EnrollmentEvent> {
    Take(Sort(Filter(es, (e: EnrollmentEvent) => e.date >= Day(now - Week)),
              KeyDesc((e: EnrollmentEvent) => e.date)), 5)
  }

  /** Tasks created within the last week, newest first, at most 5. */
  function RecentTasks(now: Time, ts: seq<TaskEvent>): seq<TaskEvent> {
    Take(Sort(Filter(ts, (t: TaskEvent) => t.createdAt >= now - Week),
              KeyDesc((t: TaskEvent) => t.createdAt)), 5)
  }

  /** Published news created within the last week, newest first, at most 5. */
  function RecentNews(now: Time, ns: seq<NewsEvent>): seq<NewsEvent> {
    Take(Sort(Filter(ns, (n: NewsEvent) => n.createdAt >= now - Week && n.isPublished),
              KeyDesc((n: NewsEvent) => n.createdAt)), 5)
  }

  /** `f` applied to each element of `s`, in order. */
  function Map<A, B>(s: seq<A>, f: A -> B): (r: seq<B>)
    ensures |r| == |s|
    ensures forall i :: 0 <= i < |s| ==> r[i] == f(s[i])
  {
    if s == [] then [] else Map(s[..|s| - 1], f) + [f(s[|s| - 1])]
  }

  /** The activities in the order the three loops append them. */
  function Merged(now: Time, es: seq<EnrollmentEvent>, ts: seq<TaskEvent>, ns: seq<NewsEvent>): seq<Activity> {
    Map(RecentEnrollments(now, es), FromEnrollment)
    + Map(RecentTasks(now, ts), FromTask)
    + Map(RecentNews(now, ns), FromNews)
  }

  /** `activities.sort(key=lambda x: x['timestamp'], reverse=True)`: later text first. */
  predicate StampFirst(a: Activity, b: Activity) {
    LexLe(b.stamp, a.stamp)
  }

  lemma StampFirstIsTotalPreorder()
    ensures TotalPreorder(StampFirst)
  {
    forall a: Activity, b: Activity
      ensures StampFirst(a, b) || StampFirst(b, a)
    {
      LexLeTotal(a.stamp, b.stamp);
    }
    forall a: Activity, b: Activity, c: Activity | StampFirst(a, b) && StampFirst(b, c)
      ensures StampFirst(a, c)
    {
      LexLeTrans(c.stamp, b.stamp, a.stamp);
    }
  }

  /** `activities.sort(...)` then `activities[:10]`. */
  function Newest(activities: seq<Activity>): seq<Activity> {
    Take(Sort(activities, StampFirst), 10)
  }

  /** At most five enrollments, all from the last week, newest first. */
  lemma RecentEnrollmentsSpec(now: Time, es: seq<EnrollmentEvent>)
    ensures |RecentEnrollments(now, es)| <= 5
    ensures forall i :: 0 <= i < |RecentEnrollments(now, es)| ==>
      RecentEnrollments(now, es)[i] in es && RecentEnrollments(now, es)[i].date >= Day(now - Week)
    ensures SortedBy(RecentEnrollments(now, es), KeyDesc((e: EnrollmentEvent) => e.date))
  {
    var key := (e: EnrollmentEvent) => e.date;
    var f := Filter(es, (e: EnrollmentEvent) => e.date >= Day(now - Week));
    KeyOrdersArePreorders(key);
    SortSpec(f, KeyDesc(key));
  }

  /** At most five tasks, all created in the last week, newest first. */
  lemma RecentTasksSpec(now: Time, ts: seq<TaskEvent>)
    ensures |RecentTasks(now, ts)| <= 5
    ensures forall i :: 0 <= i < |RecentTasks(now, ts)| ==>
      RecentTasks(now, ts)[i] in ts && RecentTasks(now, ts)[i].createdAt >= now - Week
    ensures SortedBy(RecentTasks(now, ts), KeyDesc((t: TaskEvent) => t.createdAt))
  {
    var key := (t: TaskEvent) => t.createdAt;
    var f := Filter(ts, (t: TaskEvent) => t.createdAt >= now - Week);
    KeyOrdersArePreorders(key);
    SortSpec(f, KeyDesc(key));
  }

  /** At most five news items, all published and created in the last week, newest first. */
  lemma RecentNewsSpec(now: Time, ns: seq<NewsEvent>)
    ensures |RecentNews(now, ns)| <= 5
    ensures forall i :: 0 <= i < |RecentNews(now, ns)| ==>
      RecentNews(now, ns)[i] in ns && RecentNews(now, ns)[i].createdAt >= now - Week && RecentNews(now, ns)[i].isPublished
    ensures SortedBy(RecentNews(now, ns), KeyDesc((n: NewsEvent) => n.createdAt))
  {
    var key := (n: NewsEvent) => n.createdAt;
    var f := Filter(ns, (n: NewsEvent) => n.createdAt >= now - Week && n.isPublished);
    KeyOrdersArePreorders(key);
    SortSpec(f, KeyDesc(key));
  }

  /**
   A row left out of the first `n` of a sorted list: `n` rows were kept, and
   each of them may be placed ahead of it.
   */
  lemma TopOmitted<T(!new)>(s: seq<T>, before: (T, T) -> bool, n: nat, x: T)
    requires TotalPreorder(before) && x in s && x !in Take(Sort(s, before), n)
    ensures |Take(Sort(s, before), n)| == n
    ensures forall i :: 0 <= i < n ==> before(Take(Sort(s, before), n)[i], x)
  {
    var t := Sort(s, before);
    var f := Take(t, n);
    SortSorted(s, before);
    assert x in multiset(t);
    var j :| 0 <= j < |t| && t[j] == x;
    assert f == t[..|f|];
    assert j >= |f|;
  }

  /** A qualifying enrollment left out: five were listed, none dated before it. */
  lemma RecentEnrollmentsAreLatest(now: Time, es: seq<EnrollmentEvent>, e: EnrollmentEvent)
    requires e in es && e.date >= Day(now - Week) && e !in RecentEnrollments(now, es)
    ensures |RecentEnrollments(now, es)| == 5
    ensures forall i :: 0 <= i < 5 ==> RecentEnrollments(now, es)[i].date >= e.date
  {
    var key := (e: EnrollmentEvent) => e.date;
    var f := Filter(es, (e: EnrollmentEvent) => e.date >= Day(now - Week));
    KeyOrdersArePreorders(key);
    var k :| 0 <= k < |es| && es[k] == e;
    assert e in f;
    TopOmitted(f, KeyDesc(key), 5, e);
  }

  /** A task of the last week left out: five were listed, none created before it. */
  lemma RecentTasksAreLatest(now: Time, ts: seq<TaskEvent>, t: TaskEvent)
    requires t in ts && t.createdAt >= now - Week && t !in RecentTasks(now, ts)
    ensures |RecentTasks(now, ts)| == 5
    ensures forall i :: 0 <= i < 5 ==> RecentTasks(now, ts)[i].createdAt >= t.createdAt
  {
    var key := (t: TaskEvent) => t.createdAt;
    var f := Filter(ts, (t: TaskEvent) => t.createdAt >= now - Week);
    KeyOrdersArePreorders(key);
    var k :| 0 <= k < |ts| && ts[k] == t;
    assert t in f;
    TopOmitted(f, KeyDesc(key), 5, t);
  }

  /** A published news item of the last week left out: five were listed, none created before it. */
  lemma RecentNewsAreLatest(now: Time, ns: seq<NewsEvent>, n: NewsEvent)
    requires n in ns && n.createdAt >= now - Week && n.isPublished && n !in RecentNews(now, ns)
    ensures |RecentNews(now, ns)| == 5
    ensures forall i :: 0 <= i < 5 ==> RecentNews(now, ns)[i].createdAt >= n.createdAt
  {
    var key := (n: NewsEvent) => n.createdAt;
    var f := Filter(ns, (n: NewsEvent) => n.createdAt >= now - Week && n.isPublished);
    KeyOrdersArePreorders(key);
    var k :| 0 <= k < |ns| && ns[k] == n;
    assert n in f;
    TopOmitted(f, KeyDesc(key), 5, n);
  }

  /**
   The feed holds ten activities (all of them when there are fewer), sorted
   by timestamp text, each taken from the merged list and none repeated more
   often than there.
   */
  lemma NewestSpec(m: seq<Activity>)
    ensures |Newest(m)| == if |m| <= 10 then |m| else 10
    ensures SortedBy(Newest(m), StampFirst)
    ensures multiset(Newest(m)) <= multiset(m)
    ensures forall i :: 0 <= i < |Newest(m)| ==> Newest(m)[i] in m
  {
    var s := Sort(m, StampFirst);
    var f := Newest(m);
    StampFirstIsTotalPreorder();
    SortSorted(m, StampFirst);
    assert s == f + s[|f|..];
    assert multiset(s) == multiset(f) + multiset(s[|f|..]);
    forall i | 0 <= i < |f| ensures f[i] in m {
      assert f[i] in multiset(s);
    }
  }

  /** An activity left out of the feed ranks after every activity in it. */
  lemma NewestAreLatest(m: seq<Activity>, a: Activity)
    requires a in m && a !in Newest(m)
    ensures forall i :: 0 <= i < |Newest(m)| ==> StampFirst(Newest(m)[i], a)
  {
    StampFirstIsTotalPreorder();
    TopOmitted(m, StampFirst, 10, a);
  }

  /** Activities with the same timestamp text keep the order in which the loops appended them. */
  lemma EqualStampsKeepMergeOrder(now: Time, es: seq<EnrollmentEvent>, ts: seq<TaskEvent>, ns: seq<NewsEvent>, k: Activity)
    ensures TiesWith(Sort(Merged(now, es, ts, ns), StampFirst), k, StampFirst) == TiesWith(Merged(now, es, ts, ns), k, StampFirst)
  {
    StampFirstIsTotalPreorder();
    SortStable(Merged(now, es, ts, ns), k, StampFirst);
  }

  /** Two activities tie in the feed's order exactly when their timestamp texts are equal. */
  lemma StampTieIsEquality(a: Activity, b: Activity)
    ensures Tie(a, b, StampFirst) <==> a.stamp == b.stamp
  {
    if Tie(a, b, StampFirst) {
      LexLeAntisymmetric(a.stamp, b.stamp);
    } else {
      LexLeTotal(a.stamp, a.stamp);
    }
  }

  /**
   An enrollment's timestamp is a date only, a prefix of the date-and-time
   timestamps of the same day, so in the feed it ranks after every task or
   news item from that day.
   */
  lemma DateStampSortsAfterSameDayTimes(e: Activity, t: Activity)
    requires e.stamp <= t.stamp
    ensures StampFirst(t, e)
  {
    PrefixLexLe(e.stamp, t.stamp);
  }

  /** The three loops of `recent_activities`, appending one activity per selected row. */
  method AppendActivities(e: seq<EnrollmentEvent>, t: seq<TaskEvent>, n: seq<NewsEvent>)
    returns (activities: seq<Activity>)
    ensures activities == Map(e, FromEnrollment) + Map(t, FromTask) + Map(n, FromNews)
  {
    activities := AppendEach([], e, FromEnrollment);
    activities := AppendEach(activities, t, FromTask);
    activities := AppendEach(activities, n, FromNews);
  }

  /** One of the handler's loops: `f(x)` appended to `base` for each `x` of `s`, in order. */
  method AppendEach<A, B>(base: seq<B>, s: seq<A>, f: A -> B) returns (out: seq<B>)
    ensures out == base + Map(s, f)
  {
    out := base;
    var i := 0;
    while i < |s|
      invariant 0 <= i <= |s|
      invariant out == base + Map(s[..i], f)
    {
      assert s[..i + 1][..i] == s[..i];
      out := out + [f(s[i])];
      i := i + 1;
    }
    assert s[..i] == s;
  }

  /** `recent_activities`: the selected rows as activities, then the stable sort and the cut at 10. */
  method RecentActivities(user: User, now: Time, es: seq<EnrollmentEvent>, ts: seq<TaskEvent>, ns: seq<NewsEvent>)
    returns (r: Result<seq<Activity>>)
    ensures user.rol != Admin ==> r == Err(Forbidden(AdminsOnly))
    ensures user.rol == Admin ==> r == Ok(Newest(Merged(now, es, ts, ns)))
  {
    if user.rol != Admin {
      return Err(Forbidden(AdminsOnly));
    }
    var activities := AppendActivities(RecentEnrollments(now, es), RecentTasks(now, ts), RecentNews(now, ns));
    activities := Sort(activities, StampFirst);
    return Ok(Take(activities, 10));
  }

  // ---------------------------------------------------------------------
  // global_attendance_stats

  datatype GlobalStats = GlobalStats(
    overallAttendance: real, todaySessions: nat, studentsPresentToday: nat, totalStudentsToday: nat,
    weeklyTrend: seq<real>)

  /** `Attendance.objects.filter(session__date=day)`. */
  function RowsOnDay(sessions: seq<AttendanceSession>, rows: seq<Attendance>, day: Date): seq<Attendance> {
    Filter(rows, (a: Attendance) => SessionDate(sessions, a.session) == day)
  }

  /** The present rate of one day's rows. */
  function DayRate(sessions: seq<AttendanceSession>, rows: seq<Attendance>, day: Date): (r: real)
    ensures 0.0 <= r <= 100.0
    ensures RowsOnDay(sessions, rows, day) == [] ==> r == 0.0
  {
    var on := RowsOnDay(sessions, rows, day);
    Rate(CountStatus(on, Present), |on|)
  }

  /** The seven daily rates, oldest first, the last one for `today`. */
  method WeeklyTrend(sessions: seq<AttendanceSession>, rows: seq<Attendance>, today: Date) returns (trend: seq<real>)
    ensures |trend| == 7
    ensures forall i :: 0 <= i < 7 ==> trend[i] == DayRate(sessions, rows, today - (6 - i))
  {
    trend := [];
    var i := 0;
    while i < 7
      invariant 0 <= i <= 7 && |trend| == i
      invariant forall j :: 0 <= j < i ==> trend[j] == DayRate(sessions, rows, today - (6 - j))
    {
      trend := trend + [DayRate(sessions, rows, today - (6 - i))];
      i := i + 1;
    }
  }

  /**
   `global_attendance_stats`: the overall rate, today's counts, and seven
   daily rates, oldest first, the last one for today.
   */
  method GlobalAttendanceStats(user: User, now: Time, sessions: seq<AttendanceSession>, rows: seq<Attendance>)
    returns (r: Result<GlobalStats>)
    ensures user.rol != Admin ==> r == Err(Forbidden(AdminsOnly))
    ensures user.rol == Admin ==> r.Ok?
    ensures r.Ok? ==>
      var today := Day(now);
      && r.value.overallAttendance == Rate(CountStatus(rows, Present), |rows|)
      && r.value.todaySessions == Count(sessions, (s: AttendanceSession) => s.date == today)
      && r.value.studentsPresentToday == CountStatus(RowsOnDay(sessions, rows, today), Present)
      && r.value.totalStudentsToday == |RowsOnDay(sessions, rows, today)|
      && |r.value.weeklyTrend| == 7
      && (forall i :: 0 <= i < 7 ==> r.value.weeklyTrend[i] == DayRate(sessions, rows, today - (6 - i)))
      && r.value.weeklyTrend[6] == DayRate(sessions, rows, today)
  {
    if user.rol != Admin {
      return Err(Forbidden(AdminsOnly));
    }
    var today := Day(now);
    var overall := Rate(CountStatus(rows, Present), |rows|);
    var todaySessions := Count(sessions, (s: AttendanceSession) => s.date == today);
    var todayRows := RowsOnDay(sessions, rows, today);
    var trend := WeeklyTrend(sessions, rows, today);
    assert trend[6] == DayRate(sessions, rows, today - (6 - 6));
    r := Ok(GlobalStats(overall, todaySessions, CountStatus(todayRows, Present), |todayRows|, trend));
  }
}
