/**
 Attendance sessions, per-student attendance rows and the stored attendance
 summary with its percentage rule.
 */
module AttendanceModels {
  import opened Common
  import opened UserModels

  /**
   `Attendance.ATTENDANCE_STATUS`. `Unlisted` is a code outside the four
   choices: `update_or_create` does not run the choices validation, so such a
   code is stored as given.
   */
  datatype AttendanceStatus = Present | Absent | Late | Excused | Unlisted(code: string)

  predicate Listed(s: AttendanceStatus) {
    !s.Unlisted?
  }

  /** The stored status for a request's status code. */
  function ParseStatus(code: string): (s: AttendanceStatus)
    ensures Listed(s) <==> code in {"present", "absent", "late", "excused"}
    ensures s == Present <==> code == "present"
    ensures s == Unlisted(code) <==> !Listed(s)
  {
    if code == "present" then Present
    else if code == "absent" then Absent
    else if code == "late" then Late
    else if code == "excused" then Excused
    else Unlisted(code)
  }

  /** One class meeting of a course group; unique per (course group, schedule, date). */
  datatype AttendanceSession = AttendanceSession(
    id: nat, group: nat, schedule: nat, date: Date, startTime: int, endTime: int, topic: Option<string>)

  function SessionKey(s: AttendanceSession): (nat, nat, Date) {
    (s.group, s.schedule, s.date)
  }

  /** One student's row in one session; `student` is a student-profile id. */
  datatype Attendance = Attendance(
    session: nat, student: nat, status: AttendanceStatus, arrivalTime: Option<int>, notes: Option<string>, markedBy: UserId)

  /** `Attendance.Meta.unique_together`. */
  function AttendanceKey(a: Attendance): (nat, nat) {
    (a.session, a.student)
  }

  predicate KeysUnique(rows: seq<Attendance>) {
    forall i, j :: 0 <= i < j < |rows| ==> AttendanceKey(rows[i]) != AttendanceKey(rows[j])
  }

  /** `.filter(status=s).count()`. */
  function CountStatus(rows: seq<Attendance>, s: AttendanceStatus): nat {
    Count(rows, (a: Attendance) => a.status == s)
  }

  /** Every row is counted under exactly one of the four choices or as unlisted. */
  lemma {:induction false} StatusPartition(rows: seq<Attendance>)
    ensures |rows| == CountStatus(rows, Present) + CountStatus(rows, Absent) + CountStatus(rows, Late)
                      + CountStatus(rows, Excused) + Count(rows, (a: Attendance) => !Listed(a.status))
  {
    if rows != [] {
      StatusPartition(rows[1..]);
    }
  }

  /** With only listed codes stored, the four counts partition the rows. */
  lemma {:induction false} ListedStatusPartition(rows: seq<Attendance>)
    requires forall i :: 0 <= i < |rows| ==> Listed(rows[i].status)
    ensures |rows| == CountStatus(rows, Present) + CountStatus(rows, Absent) + CountStatus(rows, Late)
                      + CountStatus(rows, Excused)
  {
    StatusPartition(rows);
    FilterNone(rows, (a: Attendance) => !Listed(a.status));
  }

  /**
   `AttendanceSession.clean`: rejects a start that is not before the end.
   Time values are always truthy in Python, so only a missing one skips the check.
   */
  predicate SessionClean(startTime: Option<int>, endTime: Option<int>) {
    !(startTime.Some? && endTime.Some? && startTime.value >= endTime.value)
  }

  /** A stored per-period summary; unique per (student, course group, period start, period end). */
  class AttendanceSummary {
    var student: nat
    var group: nat
    var periodStart: Date
    var periodEnd: Date
    var totalSessions: int
    var presentCount: int
    var absentCount: int
    var lateCount: int
    var excusedCount: int
    var attendancePercentage: real

    constructor (student: nat, group: nat, periodStart: Date, periodEnd: Date)
      ensures this.student == student && this.group == group
      ensures this.periodStart == periodStart && this.periodEnd == periodEnd
      ensures totalSessions == 0 && presentCount == 0 && absentCount == 0
      ensures lateCount == 0 && excusedCount == 0 && attendancePercentage == 0.0
    {
      this.student, this.group := student, group;
      this.periodStart, this.periodEnd := periodStart, periodEnd;
      totalSessions, presentCount, absentCount, lateCount, excusedCount := 0, 0, 0, 0, 0;
      attendancePercentage := 0.0;
    }

    /** `calculate_percentage`: stores the rate in the object and returns it. */
    method CalculatePercentage() returns (p: real)
      modifies this`attendancePercentage
      ensures p == attendancePercentage
      ensures totalSessions > 0 ==> p * (totalSessions as real) == (presentCount as real) * 100.0
      ensures totalSessions <= 0 ==> p == 0.0
      ensures 0 <= presentCount <= totalSessions ==> 0.0 <= p <= 100.0
    {
      if totalSessions > 0 {
        attendancePercentage := (presentCount as real) / (totalSessions as real) * 100.0;
      } else {
        attendancePercentage := 0.0;
      }
      p := attendancePercentage;
      assert p == Rate(presentCount, totalSessions);
    }
  }
}
