# Fine Tune English backend — a verified model of its request handlers

Fine Tune English is a language school's web backend, written in Django. It has:

- **Users** in three roles (`estudiante`, `docente`, `admin`). Student and teacher profiles hang off the user.
- **Courses**: groups, enrollments, weekly schedules and grades.
- **Tasks** and their submissions.
- **Attendance**: sessions, per-student marks and summaries.
- **News**, with a per-user view counter.
- **Notifications**.
- **An admin dashboard.**

This project models the behaviour of the HTTP handlers and of the model methods they rely on, as Dafny modules:

| module | file | what it holds |
|---|---|---|
| `Common` | common.dfy | results and HTTP failures, options, times and days, string trimming and lower-casing, filters and counts |
| `Sorting` | sorting.dfy | a stable insertion sort standing in for `order_by`, with sortedness, permutation and stability proved |
| `UserModels` | users_models.dfy | users, profiles, `primer_nombre`, password-reset tokens |
| `UserSerializers` | users_serializers.dfy | the registration, login and password serializers' validation and the username choice |
| `UserViews` | users_views.dfy | login, registration, the password-reset flow and password change over a mutable `Accounts` store |
| `CourseModels` | courses_models.dfy | groups, enrollments, schedules, grades and the grade percentage |
| `CourseViews` | courses_views.dfy | the student's course endpoints |
| `TaskModels` | tasks_models.dfy | tasks, submissions and the submission percentage |
| `TaskViews` | tasks_views.dfy | task classification, listings, submission and creation over a mutable `TaskBoard` |
| `AttendanceModels` | attendance_models.dfy | sessions, marks, statuses and `AttendanceSummary.calculate_percentage` |
| `AttendanceViews` | attendance_views.dfy | student and teacher attendance endpoints over a mutable `AttendanceBook` |
| `NewsModels` | news_models.dfy | news rows and `image_url` |
| `NewsViews` | news_views.dfy | the news list, the detail view with its view counter, and news creation over a mutable `NewsBoard` |
| `NotificationViews` | notifications_views.dfy | the notification inbox over a mutable `Inbox` |
| `AdminViews` | admin_views.dfy | system statistics, the recent-activity feed and global attendance statistics |

**How a handler is modelled**
- A handler becomes a function or method returning `Result<T>`.
- `Err(failure)` carries the response the handler sends: 403 `Forbidden`, 400 `ProfileMissing` / `BadRequest` / `FieldErrors`, 404 `NotFound`, or 500 `ServerError`.
- A 500 stands for every path where the handler's `except Exception` turns an error into a server error.
- Handlers that write to the database are methods on a class holding the affected tables as `seq` or `map` fields. Their `ensures` give the new tables as a function of the old ones.
- The request's user, the current time, fresh UUIDs and whether an e-mail could be sent are parameters.
- Database ordering (`order_by`) is a stable sort. Rows with equal keys keep their table order.

## Model

| member | source | states |
|---|---|---|
| Common.Day | backend/apps/admin/views.py:131 | the UTC calendar day of an instant: the unique d with d·86400 <= t < (d+1)·86400 |
| Common.DayMonotonic | backend/apps/tasks/views.py:79 | a later instant never falls on an earlier day |
| Common.DayShift | backend/apps/admin/views.py:141 | moving an instant by k whole days moves its day by exactly k |
| Common.DayUnique | backend/apps/admin/views.py:131 | a day number whose span contains the instant is the instant's day |
| Common.Rate | backend/apps/admin/views.py:128 | `part / total * 100` when the total is positive and 0 otherwise; within 0..100 when the part is at most the total, and 100 when they are equal |
| Common.LStripSpec | backend/apps/users/views.py:67 | the longest suffix that does not start with whitespace: exactly the leading whitespace is removed |
| Common.RStripSpec | backend/apps/users/views.py:67 | the longest prefix that does not end with whitespace: exactly the trailing whitespace is removed |
| Common.StripEmptyIffAllSpace | backend/apps/news/views.py:96 | `.strip()` is empty exactly when every character is whitespace |
| Common.StripNoEdgeSpace | backend/apps/news/views.py:116-118 | a stripped value neither starts nor ends with whitespace |
| Common.Lower | backend/apps/news/views.py:122-123 | ASCII lower-casing: same length, each character mapped on its own |
| Common.BeforeFirst | backend/apps/users/serializers.py:102 | `split('@')[0]`: the prefix up to the first separator, or all of the text when there is none |
| Common.NatToString | backend/apps/users/serializers.py:106 | `str(n)`: a non-empty run of decimal digits, of two or more digits from 10 up; `NatToStringRoundTrip` shows the digits spell n |
| Common.NatToStringRoundTrip | backend/apps/users/serializers.py:106 | reading the digits of `str(n)` back, most significant first, gives n: the counter appended to a username is written in decimal |
| Common.NatToStringInjective | backend/apps/users/serializers.py:103-107 | different counters render differently |
| Common.PrefixedCounterInjective | backend/apps/users/serializers.py:103-107 | base + str(a) equals base + str(b) only when a = b |
| Common.Filter | backend/apps/tasks/views.py:55-58 | `.filter(...)`: no longer than the table; every kept row is a table row satisfying the predicate, and every table row satisfying it is kept |
| Common.FilterSubsequence | backend/apps/tasks/views.py:55-58 | the filtered rows keep their table order: the result is a subsequence of the table |
| Common.FilterMultiplicity | backend/apps/tasks/views.py:55-58 | each row satisfying the predicate is kept as often as the table holds it, and no other row is kept |
| Common.FilterAppend | backend/apps/attendance/views.py:182-203 | filtering distributes over concatenation |
| Common.FilterNone | backend/apps/notifications/views.py:50-55 | a filter that matches no row is empty |
| Common.FindById | backend/apps/tasks/views.py:221 | `objects.get(id=id)`, used for groups, schedules and sessions: the row with that primary key; None exactly when no row has it |
| Common.FindByIdAppend | backend/apps/attendance/views.py:140 | saving a new row (a new session) does not change how an id that already resolves is found |
| Common.CountSplit | backend/apps/attendance/views.py:62-70 | the rows counted by p split into those with and without q |
| Common.FirstEmpty | backend/apps/news/views.py:94-99 | the position of the first blank required value, every earlier one being filled; None exactly when none is blank |
| Sorting.KeyOrdersArePreorders | backend/apps/tasks/views.py:58 | ascending and descending key orders are total preorders |
| Sorting.Insert | backend/apps/admin/views.py:105 | inserting into a list keeps its elements and adds one |
| Sorting.Sort | backend/apps/admin/views.py:105 | the sorted list is a permutation of the input |
| Sorting.InsertSorted | backend/apps/admin/views.py:105 | inserting into a sorted list keeps it sorted |
| Sorting.SortSorted | backend/apps/admin/views.py:105 | the output is sorted under any total preorder |
| Sorting.TiesWithAppend | backend/apps/admin/views.py:105 | the rows tied with a key distribute over concatenation |
| Sorting.TiesWithNone | backend/apps/admin/views.py:105 | a list with no row tied with k has no tie subsequence |
| Sorting.InsertTies | backend/apps/admin/views.py:105 | insertion keeps the relative order of tied rows |
| Sorting.SortStable | backend/apps/admin/views.py:105 | the sort is stable: the rows tied with any key come out in input order |
| Sorting.SortSpec | backend/apps/admin/views.py:105 | sorted, a permutation, and the same elements |
| Sorting.LexLeTotal | backend/apps/admin/views.py:105 | the text order the feed sorts timestamps by is total |
| Sorting.LexLeTrans | backend/apps/admin/views.py:105 | the text order is transitive |
| Sorting.LexLeAntisymmetric | backend/apps/admin/views.py:105 | the text order is antisymmetric, so equal rank means equal text |
| Sorting.PrefixLexLe | backend/apps/admin/views.py:105 | a prefix sorts no later than the text it starts |
| UserModels.PrimerNombre | backend/apps/users/models.py:35-37 | the first name is a space-free prefix of the full name, ending at the first space or at the end |
| UserModels.PrimerNombreCases | backend/apps/users/models.py:35-37 | a full name without spaces is its own first name; otherwise the first name is strictly shorter |
| UserModels.NewResetToken | backend/apps/users/models.py:46-49 | a new token is unused, for its user, and expires one hour after its creation |
| UserModels.SaveKeepsExpiry | backend/apps/users/models.py:46-49 | saving a token that already has an expiry keeps it |
| UserModels.NewTokenValidForOneHour | backend/apps/users/models.py:51-57 | a new token is valid exactly up to one hour after creation |
| UserModels.UsedTokenNeverValid | backend/apps/users/models.py:55-57 | a used token is never valid |
| UserSerializers.RegisterFieldErrors | backend/apps/users/serializers.py:70-78 | one error each for a taken correo, a taken non-empty cedula and a password under 6 characters, each present exactly when its condition holds; an empty cedula is never a duplicate; the framework's own field errors are not among them |
| UserSerializers.FirstUnset | backend/apps/users/serializers.py:59-62 | the first student field that is not set, every earlier one being set; None exactly when all are set |
| UserSerializers.RoleRequirements | backend/apps/users/serializers.py:58-66 | a student needs all four student fields, the first missing one named; a teacher needs a non-empty especialization; an admin needs nothing |
| UserSerializers.ValidateAsWritten | backend/apps/users/serializers.py:53-68 | as written: mismatched passwords are refused first; with matching passwords and no `rol` key the lookup `data['rol']` fails and the request is a 500; with a role it is Validate |
| UserSerializers.Validate | backend/apps/users/serializers.py:53-68 | mismatched passwords are refused; otherwise the role's requirements decide, an omitted role taking the model default estudiante |
| UserSerializers.RolOmittedDiscrepancy | backend/apps/users/serializers.py:58 | a concrete complete student registration without `rol` that the written code answers with 500 and the intended validation accepts |
| UserSerializers.RegisterCheck | backend/apps/users/serializers.py:25-78 | for a form that passed the framework's field parsing: the modelled field errors come first; the request is accepted exactly when there are none and validation passes, and then the password is long enough and confirmed and correo and cedula are unused. It uses the corrected `Validate`, so a form without `rol` is checked as a student's where the source answers 500 (see Findings) |
| UserSerializers.StudentRegistrationComplete | backend/apps/users/serializers.py:58-62 | an accepted student registration carries all four required student fields |
| UserSerializers.StudentMissingGenero | backend/apps/users/serializers.py:59-62 | a student request whose only missing field is `genero` is refused naming `genero` |
| UserSerializers.Candidate | backend/apps/users/serializers.py:102-106 | the k-th username candidate starts with the base, and only k = 0 is the base itself |
| UserSerializers.CandidateInjective | backend/apps/users/serializers.py:102-106 | different counters give different candidates |
| UserSerializers.ChooseUsername | backend/apps/users/serializers.py:101-107 | the loop ends, with a username not in use that is a candidate for the text before '@' |
| UserSerializers.SubsetCardinality | backend/apps/users/serializers.py:105-107 | a subset is no larger than its superset: the bound that makes the username loop end |
| UserSerializers.NewStudentProfile | backend/apps/users/serializers.py:86-121 | the profile has the user's id and the birth date; each of the five text fields is the sent text when it is non-empty and the model's empty default otherwise |
| UserSerializers.NewTeacherProfile | backend/apps/users/serializers.py:96-126 | a teacher profile exists exactly when a hire date was sent, with the sent especialization or "" |
| UserSerializers.PasswordPairErrors | backend/apps/users/serializers.py:164-165 | a too-short error for each new password under 6 characters, under its own field, and no error exactly when both are long enough |
| UserSerializers.ResetConfirmCheck | backend/apps/users/serializers.py:162-179 | accepted exactly when both passwords have 6 characters, are equal, and the token exists and is valid; the result is that token; otherwise the first failing check's error: the length errors, then the mismatch, then an unknown token, then a spent one |
| UserSerializers.ChangePasswordCheck | backend/apps/users/serializers.py:181-195 | accepted exactly when the current password checks and the new pair has 6 characters and is equal; the result is the new password |
| UserViews.ProfileOf | backend/apps/users/views.py:128-132 | a student with a student profile gets it, a teacher with a teacher profile gets it, and nobody else gets a profile |
| UserViews.FindByCorreo | backend/apps/users/views.py:80 | the user with that e-mail; None exactly when nobody has it |
| UserViews.Login | backend/apps/users/views.py:62-151 | a blank stripped e-mail or empty password is refused; login succeeds exactly for an existing, active user with its role's profile and the right password, and returns that user and profile; every refusal is a 400 |
| UserViews.UnknownAndWrongPasswordAlike | backend/apps/users/views.py:102-120 | an unknown e-mail and a wrong password get the same answer, so the response does not reveal which addresses are registered |
| UserViews.ProfileCheckedBeforeActiveAndPassword | backend/apps/users/views.py:84-98 | a user lacking the role's profile is told so, whatever the password or active flag |
| UserViews.InactiveBeforePassword | backend/apps/users/views.py:108-120 | an inactive account is reported as such whatever password was sent |
| UserViews.Usernames | backend/apps/users/serializers.py:105 | exactly the usernames of the stored users |
| UserViews.Invalidate | backend/apps/users/views.py:163 | every token of the user is marked used and every other token is untouched |
| UserViews.Accounts.constructor | backend/apps/users/models.py:7-57 | an empty store satisfying the uniqueness invariants |
| UserViews.Accounts.Register | backend/apps/users/views.py:34-60 | a refused request changes nothing; an accepted one appends one user under a fresh id with an unused username and the profile its role calls for; a teacher without a hire date is a 500 with the user row kept; a cédula the table already holds (only the empty one gets past the serializer) is a 500 with nothing stored, so non-null cédulas stay unique. It rests on `RegisterCheck` and so registers a form without `rol` as a student, the corrected behaviour of the third Findings row |
| UserViews.Accounts.RequestReset | backend/apps/users/views.py:153-197 | an address without an active user is a 400 and changes nothing; otherwise the user's tokens are spent and one new one-hour token added, and a failed mail is a 500 after that |
| UserViews.Accounts.VerifyResetToken | backend/apps/users/views.py:223-247 | a missing token is a 400 and a malformed one a 500; an unknown or spent token is reported invalid; a valid one reports its user's e-mail, or is a 500 if that user is missing |
| UserViews.ValidTokenVerifies | backend/apps/users/views.py:223-247 | in a consistent store every valid token verifies and reports its own user's e-mail |
| UserViews.Accounts.ConfirmReset | backend/apps/users/views.py:199-221 | a refused request changes nothing; otherwise only the token's user gets the new password, the token is spent, and the same confirmation is refused at any later time |
| UserViews.Accounts.ChangePassword | backend/apps/users/views.py:249-265 | a refused request changes nothing; otherwise only the caller's password changes |
| UserViews.Accounts.SetPassword | backend/apps/users/views.py:209-211 | the user with that id gets the new hash and every other row is unchanged |
| UserViews.UserById | backend/apps/users/views.py:255 | the user with that id; None exactly when absent |
| UserViews.UserByIdFound | backend/apps/users/views.py:255 | a signed-in user is found by id |
| UserViews.NewUser | backend/apps/users/serializers.py:110-126 | the created user carries the sent identity, the defaulted role, the hashed password, and exactly the profile its role calls for |
| UserViews.AddUserKeepsValid | backend/apps/users/serializers.py:101-114 | appending a user with a fresh id, an unused address, an unused username and an unused cédula keeps ids, addresses, usernames and non-null cédulas unique |
| UserViews.AcceptedClashIsEmptyCedula | backend/apps/users/serializers.py:75-78 | a registration the serializer accepts can collide with a stored cédula only when it sends the empty text, which `validate_cedula` does not look up |
| UserViews.ActiveByCorreo | backend/apps/users/serializers.py:155-160 | a found user is active and has that e-mail; None when no user is both; with unique e-mails, an existing active user with that e-mail is found |
| UserViews.ReissueSpec | backend/apps/users/views.py:163-166 | afterwards the new token is the user's only unused one and is valid now, and other users' tokens are unchanged |
| UserViews.ReissueKeepsValid | backend/apps/users/views.py:163-166 | reissuing keeps every token attached to an existing user |
| CourseModels.FirstSchedule | backend/apps/attendance/views.py:129-132 | `.first()` of a group's schedules (no model ordering, so by primary key): the one with the least id, and None exactly when the group has no schedule |
| CourseModels.ActiveGroups | backend/apps/tasks/views.py:40-51 | exactly the groups of the student's active enrollments |
| CourseModels.OwnedGroups | backend/apps/attendance/views.py:225-226 | an id is in the set exactly when some group with that id is taught by the teacher |
| CourseModels.GradePercentage | backend/apps/courses/models.py:120-125 | obtained / max · 100 when max is positive, otherwise 0 |
| CourseModels.GradeCleanCases | backend/apps/courses/models.py:127-130 | with a positive max the check is obtained <= max; a zero max skips it; a negative max accepts a zero score or one at most max |
| CourseModels.GradePercentageBounded | backend/apps/courses/models.py:120-130 | a clean non-negative grade against a positive max has a percentage within 0..100 |
| CourseModels.ZeroMaxSkipsGradeCheck | backend/apps/courses/models.py:123-129 | with max 0 every score passes the check and the percentage is 0 |
| CourseViews.StudentEnrollments | backend/apps/courses/views.py:9-64 | 403 for non-students, 400 without a profile; the message form exactly when the student has no active enrollment; otherwise a non-empty list of exactly the student's active enrollments |
| CourseViews.OwnEnrollment | backend/apps/courses/views.py:73-77 | the enrollment with that id belonging to the student; None exactly when no row has both |
| CourseViews.OtherStudentsEnrollmentNotFound | backend/apps/courses/views.py:73-77 | another student's enrollment id is not found for the caller, so one student cannot read another's enrollment |
| CourseViews.EnrollmentFor | backend/apps/courses/views.py:70-77 | 403 for non-students; 500 for a student user without a profile; 404 exactly when the caller owns no enrollment with that id; otherwise that enrollment |
| CourseViews.WeekOrderIsLexicographic | backend/apps/courses/views.py:96 | the schedule order is by weekday, then by start time |
| CourseViews.GradesOfSpec | backend/apps/courses/views.py:79 | exactly the enrollment's grades, latest first |
| CourseViews.SchedulesOfSpec | backend/apps/courses/views.py:96 | exactly the group's schedules, by weekday and start time |
| CourseViews.StudentGrades | backend/apps/courses/views.py:66-81 | the lookup's error; a found enrollment is answered with exactly its grades, latest first |
| CourseViews.CourseSchedules | backend/apps/courses/views.py:83-98 | the lookup's error; a found enrollment is answered with exactly its group's schedules, in week order |
| CourseViews.CourseDetailOf | backend/apps/courses/views.py:100-122 | the lookup's error; otherwise the enrollment's group with its schedules and grades and the enrollment itself |
| TaskModels.NewSubmission | backend/apps/tasks/models.py:49-53 | a new submission is pending with no text, time or score |
| TaskModels.TaskClean | backend/apps/tasks/models.py:34-37 | accepted exactly when there is no max score or it is not negative (a zero max is falsy and skips the check) |
| TaskModels.SubmissionPercentage | backend/apps/tasks/models.py:63-68 | score / max · 100 when both are set and max is positive, otherwise 0 |
| TaskModels.SubmissionPercentageBounded | backend/apps/tasks/models.py:63-73 | a clean non-negative score against a positive max has a percentage within 0..100 |
| TaskModels.FalsyMaxSkipsSubmissionCheck | backend/apps/tasks/models.py:66-72 | without a max, or with max 0, the check passes and the percentage is 0 |
| TaskViews.Classify | backend/apps/tasks/views.py:79-97 | each of the six statuses holds exactly under its date condition, with the whole-day difference and the overdue flag; a past-due task whose submission has no time is the 500 path |
| TaskViews.NotPastDueIgnoresSubmission | backend/apps/tasks/views.py:81-93 | until the due instant the submission plays no part in the status |
| TaskViews.DueInDaysIsUrgent | backend/apps/tasks/views.py:89-96 | a task due exactly k days ahead, k from 1 to 3, is urgent with k days remaining |
| TaskViews.DueLaterTodayIsDueToday | backend/apps/tasks/views.py:86-87 | a task due later the same day is due today with 0 days remaining |
| TaskViews.SubmittedThenPastDue | backend/apps/tasks/views.py:81-83 | once past due, a submission stored by submit_task is late exactly when it was made after the due date |
| TaskViews.FindActiveTask | backend/apps/tasks/views.py:116 | the active task with that id; None when there is none |
| TaskViews.NewerFirstIsTotalPreorder | backend/apps/tasks/views.py:58 | `-created_at` is a total preorder |
| TaskViews.TasksOfGroupsSpec | backend/apps/tasks/views.py:55-58 | exactly the active tasks of the given groups, newest first |
| TaskViews.SubmitCheck | backend/apps/tasks/views.py:152-177 | 403 for non-students; 500 for a missing task or profile; 403 when not actively enrolled in the task's group; 400 for blank text; otherwise accepted with the stripped text, exactly when all checks pass |
| TaskViews.CreateCheck | backend/apps/tasks/views.py:208-253 | 403 for non-teachers; 400 without a group; 500 for an unknown group; 403 for another teacher's group; then, for an owned group, the first blank required field by name when there is one, else invalid data when the serializer rejects the rest; accepted exactly when all pass |
| TaskViews.CreateNamesFirstMissing | backend/apps/tasks/views.py:231-236 | a request whose title is set and description blank is refused naming description |
| TaskViews.TeacherCourseGroups | backend/apps/tasks/views.py:265-284 | 403 for non-teachers; otherwise exactly the caller's groups |
| TaskViews.NewTask | backend/apps/tasks/views.py:239-243 | the stored task is active, in the request's group, created now, and has the validated title, description, type, due date, priority and maximum score |
| TaskViews.TaskBoard.constructor | backend/apps/tasks/models.py:4-58 | an empty board with one submission per (task, student) |
| TaskViews.TaskBoard.SubmissionOf | backend/apps/tasks/views.py:68-77 | the student's submission for the task; None exactly when there is none |
| TaskViews.TaskBoard.ViewFor | backend/apps/tasks/views.py:64-99 | a task's row: the task, the student's submission and its classification; None exactly on the 500 path |
| TaskViews.TaskBoard.StudentTasks | backend/apps/tasks/views.py:11-109 | 403 for non-students, 400 without a profile; otherwise one row per visible task, in listing order, or a 500 when some row cannot be classified |
| TaskViews.TaskBoard.TaskDetail | backend/apps/tasks/views.py:111-150 | a missing task is a 500; a non-student sees the bare task; a student without a profile is a 500, an unenrolled one a 403; otherwise the task with the student's own submission |
| TaskViews.TaskBoard.SubmitTask | backend/apps/tasks/views.py:152-206 | a refused request changes nothing; an accepted one stores the text, the submitted status and the time under (task, student), keeping any earlier score, and changes no other submission |
| TaskViews.TaskBoard.CreateTask | backend/apps/tasks/views.py:208-263 | a refused request changes nothing; an accepted one appends the new task under a fresh id |
| TaskViews.TaskBoard.TeacherTasks | backend/apps/tasks/views.py:286-330 | 403 for non-teachers; otherwise one row per active task of the caller's groups, newest first, with the group's active enrollments, the submitted or graded submissions, and pending = total − submitted |
| AttendanceModels.ParseStatus | backend/apps/attendance/models.py:26-35 | a code is listed exactly when it is one of the four choices, `present` alone gives Present, and any other code is kept unlisted as given |
| AttendanceModels.StatusPartition | backend/apps/attendance/models.py:26-35 | every row is counted once: present + absent + late + excused + unlisted = number of rows |
| AttendanceModels.ListedStatusPartition | backend/apps/attendance/models.py:26-35 | when every stored code is one of the four choices, the four counts add up to the number of rows |
| AttendanceModels.AttendanceSummary.constructor | backend/apps/attendance/models.py:47-57 | a new summary keeps its student, group and period and has every count and the percentage at their zero defaults |
| AttendanceModels.AttendanceSummary.CalculatePercentage | backend/apps/attendance/models.py:66-72 | stores and returns present/total·100 when there are sessions and 0 otherwise; within 0..100 when present ≤ total |
| AttendanceViews.StudentAttendance | backend/apps/attendance/views.py:11-40 | 403 for non-students, 400 without a student profile; otherwise exactly the student's rows, latest session date first |
| AttendanceViews.Tally | backend/apps/attendance/views.py:77-86 | a subject's entry: its row count, present count, and present/total·100 (0 with no rows), within 0..100 |
| AttendanceViews.SummaryOf | backend/apps/attendance/views.py:63-96 | total and the four status counts over the student's rows, the overall rate, and one entry per subject of those rows, each the tally of that subject's rows |
| AttendanceViews.SubjectRowsNonEmpty | backend/apps/attendance/views.py:74-78 | every subject listed in the summary has at least one row |
| AttendanceViews.SubjectEntryRate | backend/apps/attendance/views.py:78-80 | each subject entry has a positive total, present ≤ total, and its percentage is present/total·100 |
| AttendanceViews.SummaryCountsPartition | backend/apps/attendance/views.py:64-68 | with only listed codes stored, present + absent + late + excused = total |
| AttendanceViews.SummaryAsWritten | backend/apps/attendance/views.py:74-77 | as written: 403 for non-students and 500 for every student |
| AttendanceViews.StudentSummary | backend/apps/attendance/views.py:50-103 | 403 for non-students, 500 for a student without a profile, otherwise the summary of exactly that student's rows, subjects taken from each session's schedule |
| AttendanceViews.SummaryDiscrepancy | backend/apps/attendance/views.py:74-77 | a student with a profile gets 500 as written and a summary from the corrected handler |
| AttendanceViews.RowOf | backend/apps/attendance/views.py:188-196 | the upserted row is keyed by (session, student), marked by the caller, with the parsed status and the entry's arrival time |
| AttendanceViews.UpsertSpec | backend/apps/attendance/views.py:188-197 | `update_or_create` keeps (session, student) keys unique, adds the row's key and no other, keeps every row with another key, and holds exactly the new row for its key |
| AttendanceViews.UpsertResolves | backend/apps/attendance/views.py:188-197 | if every row and the new row name an existing session, so does every row after the upsert |
| AttendanceViews.Processed | backend/apps/attendance/views.py:181-203 | the response rows: at most one per entry, each for the session, marked by the caller, for a known profile |
| AttendanceViews.ProcessedCount | backend/apps/attendance/views.py:182-203 | the response has exactly one row per entry whose student resolves and that has a status; the others are skipped |
| AttendanceViews.MarkAllSpec | backend/apps/attendance/views.py:182-203 | after the loop keys are still unique and are the old keys plus those of the processed rows |
| AttendanceViews.MarkAllKeepsOthers | backend/apps/attendance/views.py:182-203 | a stored row whose key no processed entry shares is still stored |
| AttendanceViews.MarkAllLastWins | backend/apps/attendance/views.py:182-203 | for a student named by several entries, the stored row is the one of the last processed entry |
| AttendanceViews.SessionCheck | backend/apps/attendance/views.py:111-145 | 403 for non-teachers, 400 without a group, 500 for an unknown group, 403 for another teacher's group; for an owned group, 400 exactly when it has no schedule, then the serializer's errors when it is invalid, and otherwise success with the group, its first schedule and the parsed fields |
| AttendanceViews.CreateSessionAsWritten | backend/apps/attendance/views.py:135-142 | as written: each failing check answers as above, and every request that passes them is a 500 |
| AttendanceViews.AttendanceBook.constructor | backend/apps/attendance/models.py:4-42 | an empty store, valid, ids starting at 1 |
| AttendanceViews.AttendanceBook.CreateSession | backend/apps/attendance/views.py:105-153 | a rejected request changes nothing; a session repeating (group, schedule, date) is refused by the uniqueness rule of models.py:15; otherwise one session is appended under a fresh id for the group's first schedule |
| AttendanceViews.AttendanceBook.TeacherSessions | backend/apps/attendance/views.py:218-230 | 403 for non-teachers; otherwise exactly the sessions of the teacher's groups, latest date first |
| AttendanceViews.AttendanceBook.MarkCheck | backend/apps/attendance/views.py:161-179 | 403 for non-teachers, 400 without a session id, 400 with no entries, 500 for an unknown session, 403 for another teacher's session; a request with entries for a session in one of the caller's groups is accepted with that session |
| AttendanceViews.AttendanceBook.MarkAttendance | backend/apps/attendance/views.py:155-216 | a rejected request writes nothing; an accepted one upserts the processed entries in order, keeping one row per (session, student), and returns exactly those rows |
| AttendanceViews.AttendanceBook.TeacherAttendanceStats | backend/apps/attendance/views.py:232-284 | 403 for non-teachers; otherwise the group count, the session count over those groups, the present rate over all their rows, and per group in storage order its present rate and active enrollments |
| AttendanceViews.GroupsOfSpec | backend/apps/attendance/views.py:241 | the groups the stats cover are exactly the stored groups the caller teaches, each as often as stored, in storage order |
| NewsModels.ImageUrl | backend/apps/news/models.py:35-44 | no URL without an image; a path starting with '/' gets the media host prepended, any other value is kept |
| NewsViews.NewsListSpec | backend/apps/news/views.py:12-57 | the list is newest first and holds exactly the published rows, each once |
| NewsViews.NewsListEmptyIff | backend/apps/news/views.py:25-27 | the list is empty exactly when nothing is published |
| NewsViews.FindPublished | backend/apps/news/views.py:64 | the position of the published row with that id, None when there is none |
| NewsViews.DetailLookupAsWritten | backend/apps/news/views.py:64-80 | as written: a missing or unpublished id is a 500 |
| NewsViews.DetailLookup | backend/apps/news/views.py:64 | a missing or unpublished id is a 404 |
| NewsViews.UnpublishedDetailDiscrepancy | backend/apps/news/views.py:64-80 | the two lookups disagree exactly on ids that are not published |
| NewsViews.Counted | backend/apps/news/views.py:70-71 | a counted view raises the counter by one and changes nothing else |
| NewsViews.ViewNewsSpec | backend/apps/news/views.py:61-80 | an unpublished id is a 404 and changes nothing; otherwise the (news, user) marker is present afterwards, that row's counter rises by one, other rows are unchanged and the updated row is returned |
| NewsViews.FindPublishedSameKeys | backend/apps/news/views.py:64-71 | the lookup depends only on ids and publication flags, so updating the counter does not change how ids resolve |
| NewsViews.RepeatedViews | backend/apps/news/views.py:67-71 | k views by one user leave one marker for the pair while the counter rises by k: the counter counts calls, not viewers |
| NewsViews.LowerIdempotent | backend/apps/news/views.py:122-123 | lower-casing twice is lower-casing once |
| NewsViews.FlagIgnoresCase | backend/apps/news/views.py:122-123 | the flag parser ignores letter case |
| NewsViews.FlagDefaults | backend/apps/news/views.py:122-123 | an absent is_published means true and an absent is_featured means false |
| NewsViews.FlagWords | backend/apps/news/views.py:122-123 | a sent value turns a flag on exactly when it is "1", or "true" or "yes" in any case |
| NewsViews.RequiredPresent | backend/apps/news/views.py:94-99 | when all three fields are non-blank, all three keys were sent |
| NewsViews.CreateCheck | backend/apps/news/views.py:84-112 | 403 for non-admins, the first blank field by name, an unknown category; otherwise the stripped texts, the category and the parsed flags |
| NewsViews.BlankTitleRejected | backend/apps/news/views.py:94-99 | a whitespace-only title is rejected naming title |
| NewsViews.StoredTextTrimmed | backend/apps/news/views.py:116-118 | the stored texts are the stripped submissions and have no edge whitespace |
| NewsViews.NewRow | backend/apps/news/views.py:115-124 | the new row carries the draft, the author and the time, with no views |
| NewsViews.AppendKeepsRowsValid | backend/apps/news/views.py:115-124 | appending a row under the next id keeps ids distinct |
| NewsViews.CreateOutcomeSpec | backend/apps/news/views.py:84-150 | a rejected request leaves the table; an accepted one appends one row under a fresh id, authored by the caller, with no views |
| NewsViews.NewsBoard.constructor | backend/apps/news/models.py:1-52 | an empty, valid board |
| NewsViews.NewsBoard.Detail | backend/apps/news/views.py:61-80 | the detail view's effect on the counters and views, as ViewNews gives it |
| NewsViews.NewsBoard.CreateNews | backend/apps/news/views.py:84-150 | the board after creation, as CreateOutcome gives it |
| NotificationViews.MarkRead | backend/apps/notifications/views.py:39-41 | the notification is read with `read_at` at the given time and keeps its id, recipient and creation time |
| NotificationViews.ReadAllLeavesNoneUnread | backend/apps/notifications/views.py:50-58 | after the bulk marking the user has nothing unread |
| NotificationViews.ReadAllKeepsOthers | backend/apps/notifications/views.py:50-58 | another user's notifications and unread count are exactly as before |
| NotificationViews.Inbox.constructor | backend/apps/notifications/models.py:13-34 | an inbox holding the given notification table, whose ids are unique as primary keys are; every handler keeps them unique |
| NotificationViews.Inbox.MarkUnreadOf | backend/apps/notifications/views.py:19-24 | the loop leaves every row of the user that was unread marked read at the given time, and every other row as it was |
| NotificationViews.Inbox.UserNotifications | backend/apps/notifications/views.py:10-27 | marks the user's unread rows read, then lists all the user's notifications, newest first, as they now are |
| NotificationViews.Inbox.MarkAsRead | backend/apps/notifications/views.py:29-44 | 404 and no change exactly when the user owns no notification with that id; otherwise only that row is marked read and returned |
| NotificationViews.Inbox.MarkAllAsRead | backend/apps/notifications/views.py:46-62 | reports the number of the user's unread rows before the call, in the response message, and leaves none unread |
| NotificationViews.Inbox.UnreadCount | backend/apps/notifications/views.py:64-73 | at most the table size, and zero exactly when the user has nothing unread |
| NotificationViews.UnreadIsZeroIff | backend/apps/notifications/views.py:68-71 | a zero unread count means no unread row, and the other way round |
| NotificationViews.SecondMarkAllIsNoOp | backend/apps/notifications/views.py:50-58 | a second bulk marking, at any later time, finds nothing unread and changes nothing |
| AdminViews.SystemStatsOf | backend/apps/admin/views.py:13-46 | 403 for non-admins; otherwise active students, active teachers, active courses, active enrollments, published news and active tasks, each counted over its table; students plus teachers never exceed the users |
| AdminViews.ActiveUsersByRole | backend/apps/admin/views.py:22-23 | every user is an active student, an active teacher, an active admin or inactive: the four counts add up to the number of users |
| AdminViews.FromEnrollment | backend/apps/admin/views.py:69-75 | an enrollment becomes an enrollment activity carrying its date's timestamp text |
| AdminViews.FromTask | backend/apps/admin/views.py:82-88 | a task becomes a task-created activity carrying its creation timestamp text |
| AdminViews.FromNews | backend/apps/admin/views.py:96-102 | a news row becomes a news-published activity carrying its creation timestamp text |
| AdminViews.Take | backend/apps/admin/views.py:67 | slicing `[:n]` gives a prefix of at most n rows, all of them when there are fewer |
| AdminViews.Map | backend/apps/admin/views.py:69-102 | one activity per selected row, in order |
| AdminViews.StampFirstIsTotalPreorder | backend/apps/admin/views.py:105 | the feed's order is a total preorder |
| AdminViews.RecentEnrollmentsSpec | backend/apps/admin/views.py:65-67 | at most five enrollments, all dated within the last week, latest first |
| AdminViews.RecentTasksSpec | backend/apps/admin/views.py:78-80 | at most five tasks, all created within the last week, newest first |
| AdminViews.RecentNewsSpec | backend/apps/admin/views.py:91-94 | at most five news rows, all published and created within the last week, newest first |
| AdminViews.NewestSpec | backend/apps/admin/views.py:105-107 | ten activities, or all when there are fewer, sorted by timestamp text descending, each drawn from the merged list |
| AdminViews.RecentEnrollmentsAreLatest | backend/apps/admin/views.py:65-67 | a qualifying enrollment is left out only when five are listed, none dated before it |
| AdminViews.RecentTasksAreLatest | backend/apps/admin/views.py:78-80 | a task of the last week is left out only when five are listed, none created before it |
| AdminViews.RecentNewsAreLatest | backend/apps/admin/views.py:91-94 | a published news row of the last week is left out only when five are listed, none created before it |
| AdminViews.NewestAreLatest | backend/apps/admin/views.py:105-107 | an activity left out of the ten ranks after every activity shown |
| AdminViews.EqualStampsKeepMergeOrder | backend/apps/admin/views.py:105 | `list.sort` is stable: activities with equal timestamps keep the order the three loops appended them in |
| AdminViews.StampTieIsEquality | backend/apps/admin/views.py:105 | two activities tie exactly when their timestamp texts are equal |
| AdminViews.DateStampSortsAfterSameDayTimes | backend/apps/admin/views.py:73-105 | an enrollment's date-only timestamp, being a prefix of a same-day date-and-time, ranks after that task or news item |
| AdminViews.AppendActivities | backend/apps/admin/views.py:62-102 | the list is the mapped enrollments, then tasks, then news |
| AdminViews.RecentActivities | backend/apps/admin/views.py:54-107 | 403 for non-admins; otherwise the newest ten of the merged recent rows |
| AdminViews.DayRate | backend/apps/admin/views.py:141-145 | one day's present rate, within 0..100, and 0 for a day without rows |
| AdminViews.WeeklyTrend | backend/apps/admin/views.py:139-146 | seven daily present rates, the i-th for the day 6 − i days before today, so the last is today |
| AdminViews.GlobalAttendanceStats | backend/apps/admin/views.py:115-156 | 403 for non-admins; otherwise the overall present rate, today's sessions, present and total rows, and seven daily rates from six days ago up to today |

## Left out

**Endpoints and output not modelled**
- `profile_view`, `update_profile_view`, `logout_view`, `debug_user_info`, `test_connection` (users/views.py) and `news_categories` (news/views.py) are not modelled. They are plain reads, or writes through serializers outside these modules, and promise nothing beyond the framework's behaviour.
- Sending e-mail in `password_reset_request_view` is a parameter `mailSent`. SMTP, the message text and the frontend URL are not modelled.
- JWT issuing is not modelled. A successful login returns the user and profile the tokens would be issued for.
- Serializer output formats are not modelled. This covers the field lists, `NewsSerializer`'s absolute image URL and date formatting.
- `AdminViews.SystemStatsOf` leaves out `system_health` (admin/views.py:34), a constant 98.5 the handler returns next to the counts. It depends on no data.
- Logging and `print` calls are not modelled.

**Numbers and text**
- Rounding (`round(x, 1)`, `round(x, 2)`) is not modelled. Percentages are exact reals.
- Floating point is modelled as exact reals.
- Times are whole seconds in UTC. `timezone.now()` and the current date are parameters. Time-zone conversion is not modelled.
- `Common.Lower` lower-cases ASCII letters only. Python's `str.lower` also folds non-ASCII letters.
- The framework's field parsing in the serializers is not modelled: `CharField` whitespace trimming, date and UUID parsing, and choice checking. The serializer forms hold values as those fields deliver them.
- A request value of the wrong JSON type is not modelled. A non-string where `.strip()` is called, or a non-numeric category id, is a 500 in the source. The model takes strings and numbers as given.

**Framework and persistence**
- The framework's `UniqueValidator` on e-mail and cedula is modelled as a field error, not with its exact message text.
- Passwords are hashed by an abstract injective `MakePassword`. Django's hashers and salt are not modelled.
- A malformed token in `verify_reset_token_view` is a `MalformedToken` parameter value giving 500. UUID parsing itself is not modelled.
- `UserSerializers.ResetConfirmCheck`: a malformed token in the confirm form is a 400 field error from the serializer's `UUIDField`. It is not modelled; the form's token is always a well-formed UUID.
- Concurrency and transactions are not modelled. Each request runs alone on the tables it is given.
- Database constraints are modelled as validity predicates. Examples are the unique pairs in `Meta.unique_together` and the unique e-mail.
- `Task.clean` and `Grade.clean` are modelled as predicates with their own lemmas. `AttendanceSession.clean` is the predicate `AttendanceModels.SessionClean`, with no lemma. The handlers never call any of them.
- Related rows come pre-joined: the admin feed gets events already carrying the names it prints. The `select_related` joins are not modelled.
- The notification table is a `seq` of rows. `NotificationViews.Inbox.MarkAllAsRead` reports the count of unread rows before the call, as the cached queryset does.
- `NotificationViews.Inbox.MarkUnreadOf`: every row marked in one call gets the same `read_at`. The source calls `timezone.now()` once per row.
- `UserSerializers.RegisterCheck`, `UserSerializers.RegisterFieldErrors`: the framework's own field errors are not modelled. These are a missing or blank `nombre_completo`, a missing or malformed `correo`, a missing `confirm_password`, a text over its `max_length` (such as a cédula over 20 characters), and an unknown `rol`. The source answers each with 400 before `validate` runs. The model's forms are those that passed these checks.
- `TaskViews.TaskBoard.StudentTasks`: every row is classified against one `now`. The source reads the clock again for each task; only timing differs.
- `AttendanceViews.SessionCheck`: the session serializer's own validation is the form's `parsed`/`errors` pair. Its field rules, such as the required `course_group_id` and the time formats, are not modelled.
- `AttendanceViews.AttendanceBook.MarkAttendance`: an entry is skipped only for a missing or unknown student or a missing status. Other database errors on one entry, such as a malformed arrival time, are not modelled; the source skips those entries too.

**Source behaviour the model keeps as written**
- `TaskViews.TaskBoard.TeacherTasks`: the pending count may be negative when submissions outnumber active students. It is stated as total − submitted, as the source computes it.
- `AttendanceModels.ParseStatus`: a status code outside the four listed ones is stored as written. The source has no check.
- `UserViews.Accounts.Register`: a teacher registered without a hire date is a 500 after the user row is written. The model keeps that row, and the teacher has no profile; this is a consequence of the source's missing validation, stated as is.
- `TaskViews.TaskBoard.TaskDetail`, `TaskViews.SubmitCheck`: `get_object_or_404` inside `except Exception` answers 500, not 404. It is modelled as written.
- `NewsViews.RepeatedViews`: concurrent views by one user are not modelled. The source's read-increment-save of `views_count` can lose updates under concurrency; the model runs one request at a time.

## Findings

| source | as written | input that shows it | evidently intended | confidence | as-written member | corrected member |
|---|---|---|---|---|---|---|
| backend/apps/attendance/views.py:74-77 | the summary looks up `session__subject`, a field the session does not have, so every student request fails with 500 | any student with a profile requesting the summary | group the rows by the subject of the session's schedule | not executed | AttendanceViews.SummaryAsWritten | AttendanceViews.StudentSummary |
| backend/apps/attendance/views.py:135-142 | the handler puts the schedule id into the request data, but the session serializer declares `schedule` as a read-only method field (attendance/serializers.py:12), so `save()` inserts a session without its required schedule (attendance/models.py:6) and the error is answered with 500 | a teacher creating a session for an owned group that has a schedule, with otherwise valid data | store the session for the group's first schedule | not executed | AttendanceViews.CreateSessionAsWritten | AttendanceViews.AttendanceBook.CreateSession |
| backend/apps/users/serializers.py:58 | `data['rol']` raises when the role is omitted, although the field has a default, and the request fails with 500 | a registration with matching passwords and no `rol` | apply the default role estudiante and its requirements | not executed | UserSerializers.ValidateAsWritten | UserSerializers.Validate |
| backend/apps/news/views.py:64-80 | the 404 raised for a missing or unpublished news id is caught by `except Exception` and answered with 500 | a detail request for an unpublished news id | answer 404 | not executed | NewsViews.DetailLookupAsWritten | NewsViews.DetailLookup |
