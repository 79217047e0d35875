/**
 Tasks and task submissions, with the Python-truthiness guards of their
 validation and percentage rules made explicit: a `Decimal` score of zero
 and a missing score are both falsy, so both switch the guards off.
 */
module TaskModels {
  import opened Common

  datatype TaskType = Assignment | Quiz | Project | Reading | Exercise

  datatype Priority = Low | Medium | High

  datatype Task = Task(
    id: nat,
    title: string,
    description: string,
    taskType: TaskType,
    group: nat,
    dueDate: Time,
    priority: Priority,
    maxScore: Option<real>,
    isActive: bool,
    createdAt: Time)

  datatype SubmissionStatus = Pending | Submitted | Graded | Late

  /** A submission record; the store keys it by (task id, student-profile id). */
  datatype Submission = Submission(
    text: Option<string>,
    submittedAt: Option<Time>,
    status: SubmissionStatus,
    score: Option<real>)

  /** A submission row as the model's defaults create it. */
  function NewSubmission(): (s: Submission)
    ensures s.status == Pending && s.submittedAt.None? && s.score.None? && s.text.None?
  {
    Submission(None, None, Pending, None)
  }

  /** Python truthiness of a nullable decimal: present and non-zero. */
  predicate Truthy(x: Option<real>) {
    x.Some? && x.value != 0.0
  }

  /** `Task.clean`: `if self.max_score and self.max_score <= 0: raise`. */
  function TaskClean(maxScore: Option<real>): (ok: bool)
    ensures ok <==> maxScore.None? || maxScore.value >= 0.0
  {
    !(Truthy(maxScore) && maxScore.value <= 0.0)
  }

  /** `TaskSubmission.percentage`. */
  function SubmissionPercentage(score: Option<real>, maxScore: Option<real>): (r: real)
    ensures score.Some? && maxScore.Some? && maxScore.value > 0.0 ==>
              r * maxScore.value == score.value * 100.0
    ensures score.None? || maxScore.None? || maxScore.value <= 0.0 ==> r == 0.0
  {
    if Truthy(score) && Truthy(maxScore) && maxScore.value > 0.0
    then score.value / maxScore.value * 100.0
    else 0.0
  }

  /** `TaskSubmission.clean`: only checks when both values are truthy. */
  predicate SubmissionClean(score: Option<real>, maxScore: Option<real>) {
    !(Truthy(score) && Truthy(maxScore) && score.value > maxScore.value)
  }

  /** With a positive maximum the check is the plain bound, and the percentage lies in [0, 100]. */
  lemma {:induction false} SubmissionPercentageBounded(score: real, maxScore: real)
    requires maxScore > 0.0 && score >= 0.0
    requires SubmissionClean(Some(score), Some(maxScore))
    ensures score <= maxScore
    ensures 0.0 <= SubmissionPercentage(Some(score), Some(maxScore)) <= 100.0
  {
    if score != 0.0 {
      var q := score / maxScore;
      assert q * maxScore == score;
      assert q <= 1.0;
      assert SubmissionPercentage(Some(score), Some(maxScore)) == q * 100.0;
    }
  }

  /** A missing or zero maximum disables the check: any score passes. */
  lemma FalsyMaxSkipsSubmissionCheck(score: Option<real>, maxScore: Option<real>)
    requires !Truthy(maxScore)
    ensures SubmissionClean(score, maxScore)
    ensures SubmissionPercentage(score, maxScore) == 0.0
  {
  }
}
