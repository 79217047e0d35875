/**
 The task handlers: the student's task list with its due-date status, task
 detail, submission (an upsert keyed by task and student profile), task
 creation by the group's teacher, and the teacher's per-task submission
 counts.

 "now" is a parameter. Listings follow `order_by('-created_at')`; rows with
 equal creation times keep their storage order.
 */
module TaskViews {
  import opened Common
  import opened Sorting
  import opened UserModels
  import opened CourseModels
  import opened TaskModels

  // ---------------------------------------------------------------------
  // Status classification

  datatype TaskStatus = Entregada | EntregadaTarde | Vencida | VenceHoy | Urgente | Pendiente

  datatype StatusInfo = StatusInfo(status: TaskStatus, daysRemaining: int, isOverdue: bool)

  /**
   The status block `student_tasks` attaches to a task. A submission is
   looked at only once the task is past due. `None` when the comparison of
   a missing `submitted_at` with the due date raises, which the handler
   turns into a 500.
   */
  function Classify(due: Time, now: Time, sub: Option<Submission>): (r: Option<StatusInfo>)
    ensures r.None? <==> due < now && sub.Some? && sub.value.submittedAt.None?
    ensures r.Some? ==> r.value.daysRemaining == Day(due) - Day(now)
    ensures r.Some? ==> r.value.isOverdue == (due < now)
    ensures r.Some? ==> (r.value.status == Entregada <==>
      due < now && sub.Some? && sub.value.submittedAt.Some? && sub.value.submittedAt.value <= due)
    ensures r.Some? ==> (r.value.status == EntregadaTarde <==>
      due < now && sub.Some? && sub.value.submittedAt.Some? && sub.value.submittedAt.value > due)
    ensures r.Some? ==> (r.value.status == Vencida <==> due < now && sub.None?)
    ensures r.Some? ==> (r.value.status == VenceHoy <==> now <= due && Day(due) == Day(now))
    ensures r.Some? ==> (r.value.status == Urgente <==> now <= due && 1 <= Day(due) - Day(now) <= 3)
    ensures r.Some? ==> (r.value.status == Pendiente <==> now <= due && Day(due) - Day(now) > 3)
  {
    var days := Day(due) - Day(now);
    if due < now then
      match sub
      case None => Some(StatusInfo(Vencida, days, true))
      case Some(s) =>
        match s.submittedAt
        case None => None
        case Some(at) => Some(StatusInfo(if at > due then EntregadaTarde else Entregada, days, true))
    else if Day(due) == Day(now) then
      Some(StatusInfo(VenceHoy, days, false))
    else
      Some(StatusInfo(if days <= 3 then Urgente else Pendiente, days, false))
  }

  /** Before the due date the submission plays no part. */
  lemma NotPastDueIgnoresSubmission(due: Time, now: Time, s: Option<Submission>)
    requires now <= due
    ensures Classify(due, now, s) == Classify(due, now, None)
  {
  }

  /** A task due a whole number k of days from now, 1 to 3, is urgent with k days left. */
  lemma {:induction false} DueInDaysIsUrgent(now: Time, k: int, s: Option<Submission>)
    requires 1 <= k <= 3
    ensures Classify(now + k * SecondsPerDay, now, s) == Some(StatusInfo(Urgente, k, false))
  {
    DayShift(now, k);
  }

  /** A task due later the same day is `vence_hoy` with no day left. */
  lemma {:induction false} DueLaterTodayIsDueToday(now: Time, due: Time, s: Option<Submission>)
    requires now <= due && Day(due) == Day(now)
    ensures Classify(due, now, s) == Some(StatusInfo(VenceHoy, 0, false))
  {
  }

  /**
   A submission stored at `at` (as `submit_task` stores it) is classified,
   once the task is past due, as late exactly when `at` is after the due date.
   */
  lemma SubmittedThenPastDue(due: Time, at: Time, now: Time, text: string, score: Option<real>)
    requires due < now
    ensures Classify(due, now, Some(Submission(Some(text), Some(at), Submitted, score))).Some?
    ensures Classify(due, now, Some(Submission(Some(text), Some(at), Submitted, score))).value.status
            == (if at > due then EntregadaTarde else Entregada)
  {
  }

  // ---------------------------------------------------------------------
  // Lookups and orderings

  /** `get_object_or_404(Task, id=id, is_active=True)`, without the raise. */
  function FindActiveTask(tasks: seq<Task>, id: nat): (r: Option<Task>)
    ensures r.Some? ==> r.value in tasks && r.value.id == id && r.value.isActive
    ensures r.None? ==> forall t :: t in tasks ==> !(t.id == id && t.isActive)
  {
    if tasks == [] then None
    else if tasks[0].id == id && tasks[0].isActive then Some(tasks[0])
    else FindActiveTask(tasks[1..], id)
  }

  /** `order_by('-created_at')`. */
  predicate NewerFirst(a: Task, b: Task) {
    a.createdAt >= b.createdAt
  }

  lemma NewerFirstIsTotalPreorder()
    ensures TotalPreorder(NewerFirst)
  {
  }

  /** `course_group__in=groups, is_active=True`. */
  function ActiveIn(groups: set<nat>): Task -> bool {
    (t: Task) => t.isActive && t.group in groups
  }

  /** The active tasks of the given groups, newest first. */
  function TasksOfGroups(tasks: seq<Task>, groups: set<nat>): seq<Task> {
    Sort(Filter(tasks, ActiveIn(groups)), NewerFirst)
  }

  /** The listing holds exactly the active tasks of the groups, newest first. */
  lemma {:induction false} TasksOfGroupsSpec(tasks: seq<Task>, groups: set<nat>)
    ensures var r := TasksOfGroups(tasks, groups);
      && SortedBy(r, NewerFirst)
      && (forall i :: 0 <= i < |r| ==> r[i] in tasks && r[i].isActive && r[i].group in groups)
      && (forall t :: t in tasks && t.isActive && t.group in groups ==> t in r)
  {
    var f := Filter(tasks, ActiveIn(groups));
    var r := TasksOfGroups(tasks, groups);
    NewerFirstIsTotalPreorder();
    SortSorted(f, NewerFirst);
    forall i | 0 <= i < |r|
      ensures r[i] in tasks && r[i].isActive && r[i].group in groups
    {
      assert r[i] in multiset(r);
      assert r[i] in f;
    }
    forall t | t in tasks && t.isActive && t.group in groups
      ensures t in r
    {
      var k :| 0 <= k < |tasks| && tasks[k] == t;
      assert t in f;
      assert t in multiset(f);
    }
  }

  // ---------------------------------------------------------------------
  // Response rows

  datatype TaskView = TaskView(task: Task, submission: Option<Submission>, info: StatusInfo)

  datatype TaskDetailView = TaskDetailView(task: Task, forStudent: bool, submission: Option<Submission>)

  datatype TaskStats = TaskStats(task: Task, totalStudents: nat, submittedCount: nat, pendingCount: int)

  /** What a successful `submit_task` writes: the store key and the stripped text. */
  datatype SubmitTarget = SubmitTarget(task: nat, student: nat, text: string)

  /** The typed values `TaskSerializer(data=...)` yields when it is valid. */
  datatype TaskFields = TaskFields(
    title: string, description: string, taskType: TaskType, dueDate: Time, priority: Priority, maxScore: Option<real>)

  /**
   The body of a `create_task` request. The five required keys are kept raw
   (an empty string stands for a missing key); `parsed` is the serializer's
   outcome, `None` when it reports errors.
   */
  datatype TaskForm = TaskForm(
    courseGroup: Option<nat>,
    title: string, description: string, taskType: string, dueDate: string, priority: string,
    parsed: Option<TaskFields>)

  const RequiredTaskFields: seq<string> := ["title", "description", "task_type", "due_date", "priority"]

  function RequiredTaskValues(f: TaskForm): seq<string> {
    [f.title, f.description, f.taskType, f.dueDate, f.priority]
  }

  const StudentsOnly := "Solo estudiantes pueden acceder"
  const StudentsOnlySubmit := "Solo estudiantes pueden entregar tareas"
  const TeachersOnly := "Solo docentes pueden acceder"
  const TeachersOnlyCreate := "Solo docentes pueden crear tareas"
  const NoTaskAccess := "No tienes acceso a esta tarea"
  const NoGroupAccess := "No tienes acceso a este grupo"
  const StudentProfileMissing := "Perfil de estudiante no encontrado. Contacta al administrador."
  const EmptySubmission := "El texto de la entrega es requerido"
  const GroupRequired := "course_group es requerido"
  const InvalidData := "Datos inv\U{e1}lidos"

  function FieldRequired(name: string): string {
    "El campo " + name + " es requerido"
  }

  /**
   The checks of `submit_task`, in order. A missing task (404 raised inside
   the handler's try) and a student without a profile both end in its
   catch-all.
   */
  function SubmitCheck(user: User, campus: Campus, tasks: seq<Task>, taskId: nat, text: Option<string>): (r: Result<SubmitTarget>)
    ensures user.rol != Estudiante ==> r == Err(Forbidden(StudentsOnlySubmit))
    ensures user.rol == Estudiante && FindActiveTask(tasks, taskId).None? ==> r == Err(ServerError)
    ensures user.rol == Estudiante && FindActiveTask(tasks, taskId).Some? && user.studentProfile.None? ==> r == Err(ServerError)
    ensures r.Ok? <==>
      && user.rol == Estudiante && user.studentProfile.Some? && FindActiveTask(tasks, taskId).Some?
      && ActivelyEnrolled(campus, user.studentProfile.value.id, FindActiveTask(tasks, taskId).value.group)
      && Strip(text.GetOr("")) != []
    ensures r.Ok? ==> r.value == SubmitTarget(taskId, user.studentProfile.value.id, Strip(text.GetOr("")))
    ensures r.Err? && user.rol == Estudiante && user.studentProfile.Some? && FindActiveTask(tasks, taskId).Some? ==>
      r.failure == (if !ActivelyEnrolled(campus, user.studentProfile.value.id, FindActiveTask(tasks, taskId).value.group)
                    then Forbidden(NoTaskAccess) else BadRequest(EmptySubmission))
  {
    if user.rol != Estudiante then Err(Forbidden(StudentsOnlySubmit))
    else match FindActiveTask(tasks, taskId)
      case None => Err(ServerError)
      case Some(task) =>
        match user.studentProfile
        case None => Err(ServerError)
        case Some(p) =>
          if !ActivelyEnrolled(campus, p.id, task.group) then Err(Forbidden(NoTaskAccess))
          else
            var s := Strip(text.GetOr(""));
            if s == [] then Err(BadRequest(EmptySubmission))
            else Ok(SubmitTarget(task.id, p.id, s))
  }

  /**
   The checks of `create_task`, in order. An unknown group id raises 404
   inside the handler's try and so ends in its catch-all; `Task.clean` is
   not run.
   */
  function CreateCheck(user: User, campus: Campus, form: TaskForm): (r: Result<(CourseGroup, TaskFields)>)
    ensures user.rol != Docente ==> r == Err(Forbidden(TeachersOnlyCreate))
    ensures user.rol == Docente && !Given(form.courseGroup) ==> r == Err(BadRequest(GroupRequired))
    ensures user.rol == Docente && Given(form.courseGroup) && FindById(campus.groups, GroupId, form.courseGroup.value).None? ==>
      r == Err(ServerError)
    ensures (user.rol == Docente && Given(form.courseGroup) && FindById(campus.groups, GroupId, form.courseGroup.value).Some?
             && !OwnedBy(FindById(campus.groups, GroupId, form.courseGroup.value).value, user)) ==> r == Err(Forbidden(NoGroupAccess))
    ensures (user.rol == Docente && Given(form.courseGroup) && FindById(campus.groups, GroupId, form.courseGroup.value).Some?
             && OwnedBy(FindById(campus.groups, GroupId, form.courseGroup.value).value, user)) ==>
      && (FirstEmpty(RequiredTaskValues(form)).Some? ==>
            r == Err(BadRequest(FieldRequired(RequiredTaskFields[FirstEmpty(RequiredTaskValues(form)).value]))))
      && (FirstEmpty(RequiredTaskValues(form)).None? && form.parsed.None? ==> r == Err(BadRequest(InvalidData)))
    ensures r.Err? && r.failure.BadRequest? && r.failure.message != GroupRequired && r.failure.message != InvalidData ==>
      var k := FirstEmpty(RequiredTaskValues(form));
      k.Some? && r.failure.message == FieldRequired(RequiredTaskFields[k.value])
    ensures r.Ok? <==>
      && user.rol == Docente && Given(form.courseGroup)
      && FindById(campus.groups, GroupId, form.courseGroup.value).Some?
      && OwnedBy(FindById(campus.groups, GroupId, form.courseGroup.value).value, user)
      && FirstEmpty(RequiredTaskValues(form)).None?
      && form.parsed.Some?
    ensures r.Ok? ==> r.value.0 in campus.groups && OwnedBy(r.value.0, user) && r.value.1 == form.parsed.value
  {
    if user.rol != Docente then Err(Forbidden(TeachersOnlyCreate))
    else if !Given(form.courseGroup) then Err(BadRequest(GroupRequired))
    else match FindById(campus.groups, GroupId, form.courseGroup.value)
      case None => Err(ServerError)
      case Some(g) =>
        if !OwnedBy(g, user) then Err(Forbidden(NoGroupAccess))
        else match FirstEmpty(RequiredTaskValues(form))
          case Some(k) => Err(BadRequest(FieldRequired(RequiredTaskFields[k])))
          case None =>
            match form.parsed
            case None => Err(BadRequest(InvalidData))
            case Some(f) => Ok((g, f))
  }

  /** A request with every required key but a blank one is refused naming that key. */
  lemma {:induction false} CreateNamesFirstMissing(user: User, campus: Campus, form: TaskForm)
    requires user.rol == Docente && Given(form.courseGroup)
    requires FindById(campus.groups, GroupId, form.courseGroup.value).Some?
    requires OwnedBy(FindById(campus.groups, GroupId, form.courseGroup.value).value, user)
    requires form.title != [] && form.description == []
    ensures CreateCheck(user, campus, form) == Err(BadRequest(FieldRequired("description")))
  {
    assert FirstEmpty(RequiredTaskValues(form)) == Some(1) by {
      assert RequiredTaskValues(form)[0] != [];
      assert RequiredTaskValues(form)[1] == [];
    }
    assert RequiredTaskFields[1] == "description";
  }

  /** `teacher_course_groups`: the caller's own groups, in storage order. */
  function TeacherCourseGroups(user: User, campus: Campus): (r: Result<seq<CourseGroup>>)
    ensures user.rol != Docente ==> r == Err(Forbidden(TeachersOnly))
    ensures user.rol == Docente ==> r.Ok?
    ensures r.Ok? ==> forall i :: 0 <= i < |r.value| ==> r.value[i] in campus.groups && OwnedBy(r.value[i], user)
    ensures r.Ok? ==> forall g :: g in campus.groups && OwnedBy(g, user) ==> g in r.value
  {
    if user.rol != Docente then Err(Forbidden(TeachersOnly))
    else
      var mine := Filter(campus.groups, (g: CourseGroup) => OwnedBy(g, user));
      assert forall g :: g in campus.groups && OwnedBy(g, user) ==> g in mine;
      Ok(mine)
  }

  /** The task `serializer.save(course_group=...)` stores. */
  function NewTask(id: nat, group: CourseGroup, f: TaskFields, now: Time): (t: Task)
    ensures t.id == id && t.group == group.id && t.isActive && t.createdAt == now
    ensures t.title == f.title && t.description == f.description && t.taskType == f.taskType
    ensures t.dueDate == f.dueDate && t.priority == f.priority && t.maxScore == f.maxScore
  {
    Task(id, f.title, f.description, f.taskType, group.id, f.dueDate, f.priority, f.maxScore, true, now)
  }

  // ---------------------------------------------------------------------
  // The task and submission store

  class TaskBoard {
    var tasks: seq<Task>
    /** `TaskSubmission` rows, keyed by `unique_together = (task, student)`. */
    var submissions: map<(nat, nat), Submission>
    /** The id the next created task receives. */
    var nextTaskId: nat

    /** Task ids are unique and below `nextTaskId`. */
    ghost predicate Valid()
      reads this
    {
      && (forall i :: 0 <= i < |tasks| ==> tasks[i].id < nextTaskId)
      && (forall i, j :: 0 <= i < j < |tasks| ==> tasks[i].id != tasks[j].id)
    }

    constructor ()
      ensures Valid() && tasks == [] && submissions == map[] && nextTaskId == 1
    {
      tasks, submissions, nextTaskId := [], map[], 1;
    }

    /** `TaskSubmission.objects.get(task=..., student=...)`, `None` on `DoesNotExist`. */
    function SubmissionOf(task: nat, student: nat): (r: Option<Submission>)
      reads this
      ensures r.Some? <==> (task, student) in submissions
      ensures r.Some? ==> r.value == submissions[(task, student)]
    {
      if (task, student) in submissions then Some(submissions[(task, student)]) else None
    }

    /** One row of `student_tasks`; `None` when its classification raises. */
    function ViewFor(t: Task, student: nat, now: Time): (r: Option<TaskView>)
      reads this
      ensures r.None? <==> Classify(t.dueDate, now, SubmissionOf(t.id, student)).None?
      ensures r.Some? ==> r.value.task == t && r.value.submission == SubmissionOf(t.id, student)
      ensures r.Some? ==> Some(r.value.info) == Classify(t.dueDate, now, SubmissionOf(t.id, student))
    {
      var sub := SubmissionOf(t.id, student);
      match Classify(t.dueDate, now, sub)
      case None => None
      case Some(info) => Some(TaskView(t, sub, info))
    }

    /**
     `student_tasks`: the caller's view of every active task of the groups it is
     actively enrolled in, newest first, each with its submission and status.
     */
    method StudentTasks(user: User, campus: Campus, now: Time) returns (r: Result<seq<TaskView>>)
      ensures user.rol != Estudiante ==> r == Err(Forbidden(StudentsOnly))
      ensures user.rol == Estudiante && user.studentProfile.None? ==> r == Err(ProfileMissing(StudentProfileMissing))
      ensures user.rol == Estudiante && user.studentProfile.Some? ==>
        var p := user.studentProfile.value.id;
        var visible := TasksOfGroups(tasks, ActiveGroups(campus, p));
        && (ActiveGroups(campus, p) == {} ==> r == Ok([]))
        && (r.Ok? <==> forall i :: 0 <= i < |visible| ==> ViewFor(visible[i], p, now).Some?)
        && (r.Err? ==> r == Err(ServerError))
        && (r.Ok? ==> |r.value| == |visible|)
        && (r.Ok? ==> forall i :: 0 <= i < |visible| ==> Some(r.value[i]) == ViewFor(visible[i], p, now))
    {
      if user.rol != Estudiante {
        return Err(Forbidden(StudentsOnly));
      }
      if user.studentProfile.None? {
        return Err(ProfileMissing(StudentProfileMissing));
      }
      var p := user.studentProfile.value.id;
      var groups := ActiveGroups(campus, p);
      if groups == {} {
        FilterNone(tasks, ActiveIn(groups));
        return Ok([]);
      }
      var visible := TasksOfGroups(tasks, groups);
      var rows: seq<TaskView> := [];
      var i := 0;
      while i < |visible|
        invariant 0 <= i <= |visible|
        invariant |rows| == i
        invariant forall j :: 0 <= j < i ==> Some(rows[j]) == ViewFor(visible[j], p, now)
      {
        var row := ViewFor(visible[i], p, now);
        if row.None? {
          return Err(ServerError);
        }
        rows := rows + [row.value];
        i := i + 1;
      }
      return Ok(rows);
    }

    /**
     `task_detail`: an active task; a student must be actively enrolled in its
     group and also receives its own submission.
     */
    function TaskDetail(user: User, campus: Campus, taskId: nat): (r: Result<TaskDetailView>)
      reads this
      ensures FindActiveTask(tasks, taskId).None? ==> r == Err(ServerError)
      ensures r.Ok? ==> r.value.task.id == taskId && r.value.task.isActive && r.value.task in tasks
      ensures user.rol != Estudiante && FindActiveTask(tasks, taskId).Some? ==>
        r == Ok(TaskDetailView(FindActiveTask(tasks, taskId).value, false, None))
      ensures user.rol == Estudiante && FindActiveTask(tasks, taskId).Some? ==>
        if user.studentProfile.None? then r == Err(ServerError)
        else if !ActivelyEnrolled(campus, user.studentProfile.value.id, FindActiveTask(tasks, taskId).value.group)
        then r == Err(Forbidden(NoTaskAccess))
        else r.Ok? && r.value.forStudent && r.value.submission == SubmissionOf(taskId, user.studentProfile.value.id)
    {
      match FindActiveTask(tasks, taskId)
      case None => Err(ServerError)
      case Some(task) =>
        if user.rol != Estudiante then Ok(TaskDetailView(task, false, None))
        else match user.studentProfile
          case None => Err(ServerError)
          case Some(p) =>
            if !ActivelyEnrolled(campus, p.id, task.group) then Err(Forbidden(NoTaskAccess))
            else Ok(TaskDetailView(task, true, SubmissionOf(task.id, p.id)))
    }

    /**
     `submit_task`: get-or-create the caller's submission for the task, then
     overwrite its text, status and time. A rejected request writes nothing.
     */
    method SubmitTask(user: User, campus: Campus, taskId: nat, text: Option<string>, now: Time) returns (r: Result<Submission>)
      modifies this`submissions
      ensures r.Err? <==> SubmitCheck(user, campus, tasks, taskId, text).Err?
      ensures r.Err? ==> r.failure == SubmitCheck(user, campus, tasks, taskId, text).failure
      ensures r.Err? ==> submissions == old(submissions)
      ensures r.Ok? ==>
        var target := SubmitCheck(user, campus, tasks, taskId, text).value;
        var key := (target.task, target.student);
        && submissions == old(submissions)[key := r.value]
        && r.value.text == Some(target.text) && r.value.status == Submitted && r.value.submittedAt == Some(now)
        && r.value.score == (if key in old(submissions) then old(submissions)[key].score else None)
    {
      var check := SubmitCheck(user, campus, tasks, taskId, text);
      if check.Err? {
        return Err(check.failure);
      }
      var key := (check.value.task, check.value.student);
      var s: Submission;
      if key in submissions {
        s := submissions[key];
      } else {
        s := NewSubmission();
      }
      s := s.(text := Some(check.value.text), status := Submitted, submittedAt := Some(now));
      submissions := submissions[key := s];
      return Ok(s);
    }

    /** `create_task`: appends the validated task under a fresh id. */
    method CreateTask(user: User, campus: Campus, form: TaskForm, now: Time) returns (r: Result<Task>)
      requires Valid()
      modifies this`tasks, this`nextTaskId
      ensures Valid()
      ensures r.Err? <==> CreateCheck(user, campus, form).Err?
      ensures r.Err? ==> r.failure == CreateCheck(user, campus, form).failure
      ensures r.Err? ==> tasks == old(tasks) && nextTaskId == old(nextTaskId)
      ensures r.Ok? ==>
        var (g, f) := CreateCheck(user, campus, form).value;
        && r.value == NewTask(old(nextTaskId), g, f, now)
        && tasks == old(tasks) + [r.value]
        && nextTaskId == old(nextTaskId) + 1
    {
      var check := CreateCheck(user, campus, form);
      if check.Err? {
        return Err(check.failure);
      }
      var t := NewTask(nextTaskId, check.value.0, check.value.1, now);
      tasks := tasks + [t];
      nextTaskId := nextTaskId + 1;
      return Ok(t);
    }

    /** `status__in=['submitted', 'graded']` over one task's submissions. */
    function SubmittedCount(task: nat): nat
      reads this
    {
      |set k | k in submissions && k.0 == task && submissions[k].status in {Submitted, Graded}|
    }

    /**
     `teacher_tasks`: for each active task of the caller's groups, newest
     first, the active enrollments of its group, its delivered submissions and
     the difference, which is negative when submissions outnumber the
     currently active students.
     */
    method TeacherTasks(user: User, campus: Campus) returns (r: Result<seq<TaskStats>>)
      ensures user.rol != Docente ==> r == Err(Forbidden(TeachersOnly))
      ensures user.rol == Docente ==> r.Ok?
      ensures r.Ok? ==>
        var owned := TasksOfGroups(tasks, OwnedGroups(campus, user.id));
        && |r.value| == |owned|
        && forall i :: 0 <= i < |owned| ==>
             && r.value[i].task == owned[i]
             && r.value[i].totalStudents == Count(campus.enrollments, (e: Enrollment) => e.group == owned[i].group && e.isActive)
             && r.value[i].submittedCount == SubmittedCount(owned[i].id)
             && r.value[i].pendingCount + r.value[i].submittedCount == r.value[i].totalStudents
    {
      if user.rol != Docente {
        return Err(Forbidden(TeachersOnly));
      }
      var owned := TasksOfGroups(tasks, OwnedGroups(campus, user.id));
      var rows: seq<TaskStats> := [];
      var i := 0;
      while i < |owned|
        invariant 0 <= i <= |owned|
        invariant |rows| == i
        invariant forall j :: 0 <= j < i ==>
          && rows[j].task == owned[j]
          && rows[j].totalStudents == Count(campus.enrollments, (e: Enrollment) => e.group == owned[j].group && e.isActive)
          && rows[j].submittedCount == SubmittedCount(owned[j].id)
          && rows[j].pendingCount + rows[j].submittedCount == rows[j].totalStudents
      {
        var t := owned[i];
        var total := Count(campus.enrollments, (e: Enrollment) => e.group == t.group && e.isActive);
        var submitted := SubmittedCount(t.id);
        rows := rows + [TaskStats(t, total, submitted, (total as int) - (submitted as int))];
        i := i + 1;
      }
      return Ok(rows);
    }
  }
}
