/**
 * The dictionary logic of the database layer: how an error message is classified,
 * how the create and update payloads for an interview session are shaped, and how
 * the dashboard figures are aggregated over a user's sessions.
 */
module Persistence {
  import opened Wrappers
  import PyStr
  import opened JsonValue

  // ------------------------------------------------------------------ errors

  datatype ErrorResponse = ErrorResponse(success: bool, error: string)

  const SchemaCode := "PGRST204"
  const JwtMarker := "JWT"
  const DuplicateMarker := "duplicate key"
  const SchemaMismatchText := "Database schema mismatch. Please contact support."
  const AuthExpiredText := "Authentication expired. Please sign in again."
  const AlreadyExistsText := "Record already exists."
  const DatabaseErrorPrefix := "Database error: "

  /** `_handle_error` on the message of the exception. */
  function HandleError(errorMsg: string): (r: ErrorResponse)
    ensures !r.success
    ensures PyStr.Contains(errorMsg, SchemaCode) ==> r.error == SchemaMismatchText
    ensures (!PyStr.Contains(errorMsg, SchemaCode) && PyStr.Contains(errorMsg, JwtMarker))
            ==> r.error == AuthExpiredText
    ensures (!PyStr.Contains(errorMsg, SchemaCode) && !PyStr.Contains(errorMsg, JwtMarker)
             && PyStr.Contains(PyStr.Lower(errorMsg), DuplicateMarker))
            ==> r.error == AlreadyExistsText
    ensures (!PyStr.Contains(errorMsg, SchemaCode) && !PyStr.Contains(errorMsg, JwtMarker)
             && !PyStr.Contains(PyStr.Lower(errorMsg), DuplicateMarker))
            ==> r.error == DatabaseErrorPrefix + errorMsg
  {
    if PyStr.Contains(errorMsg, SchemaCode) then ErrorResponse(false, SchemaMismatchText)
    else if PyStr.Contains(errorMsg, JwtMarker) then ErrorResponse(false, AuthExpiredText)
    else if PyStr.Contains(PyStr.Lower(errorMsg), DuplicateMarker) then ErrorResponse(false, AlreadyExistsText)
    else ErrorResponse(false, DatabaseErrorPrefix + errorMsg)
  }

  lemma ContainsAppend(a: string, b: string, needle: string)
    requires PyStr.Contains(b, needle)
    ensures PyStr.Contains(a + b, needle)
    decreases |a|
  {
    if |a| > 0 {
      assert (a + b)[1..] == a[1..] + b;
      ContainsAppend(a[1..], b, needle);
    } else {
      assert a + b == b;
    }
  }

  lemma ContainsPrefix(a: string, b: string, needle: string)
    requires PyStr.Contains(a, needle)
    ensures PyStr.Contains(a + b, needle)
    decreases |a|
  {
    if PyStr.StartsWith(a, needle) {
      PyStr.StartsWithAppend(a, needle, b);
    } else {
      assert (a + b)[1..] == a[1..] + b;
      ContainsPrefix(a[1..], b, needle);
    }
  }

  /** The schema code wins over every other marker in the same message. */
  lemma SchemaCodeTakesPrecedence(before: string, after: string)
    ensures HandleError(before + SchemaCode + after).error == SchemaMismatchText
  {
    assert PyStr.StartsWith(SchemaCode + after, SchemaCode);
    ContainsAppend(before, SchemaCode + after, SchemaCode);
    assert before + SchemaCode + after == before + (SchemaCode + after);
  }

  /** A message lacking one of the needle's characters does not contain the needle. */
  lemma {:induction false} MissingCharNotContained(hay: string, needle: string, k: nat)
    requires k < |needle| && forall i :: 0 <= i < |hay| ==> hay[i] != needle[k]
    ensures !PyStr.Contains(hay, needle)
    decreases |hay|
  {
    assert |needle| <= |hay| ==> hay[..|needle|][k] == hay[k];
    assert !PyStr.StartsWith(hay, needle);
    if |hay| > 0 {
      var tail := hay[1..];
      assert forall i :: 0 <= i < |tail| ==> tail[i] == hay[i + 1];
      MissingCharNotContained(tail, needle, k);
    }
  }

  /** The token match is case-sensitive: a lower-case "jwt" is no authentication error. */
  lemma LowerCaseJwtIsGeneric()
    ensures HandleError("jwt").error == DatabaseErrorPrefix + "jwt"
  {
    var m := "jwt";
    MissingCharNotContained(m, SchemaCode, 0);
    MissingCharNotContained(m, JwtMarker, 0);
    var lower := PyStr.Lower(m);
    assert lower[0] == 'j' && lower[1] == 'w' && lower[2] == 't';
    MissingCharNotContained(lower, DuplicateMarker, 0);
  }

  /** A Kelvin sign in place of the `k` still reads as a duplicate key, since it
      lower-cases to `k`. */
  lemma KelvinSignKeyIsDuplicate()
    ensures HandleError("duplicate " + [PyStr.KelvinSign] + "ey").error == AlreadyExistsText
  {
    var m := "duplicate " + [PyStr.KelvinSign] + "ey";
    MissingCharNotContained(m, SchemaCode, 0);
    MissingCharNotContained(m, JwtMarker, 0);
    var lower := PyStr.Lower(m);
    assert lower == DuplicateMarker;
    assert PyStr.StartsWith(lower, DuplicateMarker);
  }

  /** The duplicate-key match ignores case: messages that agree once lower-cased (and carry
      neither of the earlier markers) are both, or both not, classified as duplicates. */
  lemma DuplicateMatchIgnoresCase(m1: string, m2: string)
    requires PyStr.Lower(m1) == PyStr.Lower(m2)
    requires !PyStr.Contains(m1, SchemaCode) && !PyStr.Contains(m1, JwtMarker)
    requires !PyStr.Contains(m2, SchemaCode) && !PyStr.Contains(m2, JwtMarker)
    ensures HandleError(m1).error == AlreadyExistsText <==> HandleError(m2).error == AlreadyExistsText
  {
    assert (DatabaseErrorPrefix + m1)[0] != AlreadyExistsText[0];
    assert (DatabaseErrorPrefix + m2)[0] != AlreadyExistsText[0];
  }

  // ---------------------------------------------------------------- payloads

  /** A session record as a Python dict from field name to value. */
  type Payload = map<string, PyValue>

  /** `d.get(key, default)`. */
  function Get(d: Payload, key: string, default: PyValue): (v: PyValue)
    ensures key in d ==> v == d[key]
    ensures key !in d ==> v == default
  {
    if key in d then d[key] else default
  }

  /** The record `create_interview_session` inserts, one field per column. */
  datatype SessionInsert = SessionInsert(
    userId: string, title: PyValue, status: PyValue, interviewPlan: PyValue,
    currentQuestionIdx: PyValue, interviewNotes: PyValue, conversationHistory: PyValue,
    resumeContent: PyValue, jobDescription: PyValue, totalQuestions: PyValue,
    averageScore: PyValue, finalReport: PyValue, createdAt: string)

  /**
   * The full payload of `create_interview_session`: the user id and creation time come
   * from the call; every other column is the session data's value for that key, or its
   * default when the key is missing. `defaultTitle` and `now` stand for the
   * clock-derived strings.
   */
  function CreatePayload(userId: string, data: Payload, defaultTitle: string, now: string): (p: SessionInsert)
    ensures p.userId == userId && p.createdAt == now
    ensures p.averageScore == Get(data, "average_score", PyNone)
  {
    SessionInsert(
      userId,
      Get(data, "title", PyStr(defaultTitle)),
      Get(data, "status", PyStr("in_progress")),
      Get(data, "interview_plan", PyList([])),
      Get(data, "current_question_idx", PyInt(0)),
      Get(data, "interview_notes", PyList([])),
      Get(data, "conversation_history", PyList([])),
      Get(data, "resume_content", PyStr("")),
      Get(data, "job_description", PyStr("")),
      Get(data, "total_questions", PyInt(0)),
      Get(data, "average_score", PyNone),
      Get(data, "final_report", PyStr("")),
      now)
  }

  /** From empty session data the payload holds exactly the documented defaults. */
  lemma CreatePayloadDefaults(userId: string, defaultTitle: string, now: string)
    ensures CreatePayload(userId, map[], defaultTitle, now)
         == SessionInsert(userId, PyStr(defaultTitle), PyStr("in_progress"), PyList([]), PyInt(0),
                          PyList([]), PyList([]), PyStr(""), PyStr(""), PyInt(0), PyNone, PyStr(""), now)
  {
  }

  /** The keys `create_interview_session` reads from the session data, one per column. */
  const CreateKeys: seq<string> := [
    "title", "status", "interview_plan", "current_question_idx", "interview_notes",
    "conversation_history", "resume_content", "job_description", "total_questions",
    "average_score", "final_report"]

  /** The column of the insert that holds `CreateKeys[i]`. */
  function ColumnAt(p: SessionInsert, i: nat): PyValue {
    match i
    case 0 => p.title
    case 1 => p.status
    case 2 => p.interviewPlan
    case 3 => p.currentQuestionIdx
    case 4 => p.interviewNotes
    case 5 => p.conversationHistory
    case 6 => p.resumeContent
    case 7 => p.jobDescription
    case 8 => p.totalQuestions
    case 9 => p.averageScore
    case 10 => p.finalReport
    case _ => PyNone
  }

  /** The defaults the source writes for missing keys, in the order of `CreateKeys`. */
  function CreateDefaults(defaultTitle: string): (d: seq<PyValue>)
    ensures |d| == |CreateKeys|
  {
    [PyStr(defaultTitle), PyStr("in_progress"), PyList([]), PyInt(0), PyList([]), PyList([]),
     PyStr(""), PyStr(""), PyInt(0), PyNone, PyStr("")]
  }

  /** For any session data, each of the eleven columns holds the supplied value when its
      key is present and its default when it is missing; a `user_id` or `created_at` in
      the data never replaces the caller's id or the creation time. */
  lemma CreatePayloadColumns(userId: string, data: Payload, defaultTitle: string, now: string)
    ensures var p := CreatePayload(userId, data, defaultTitle, now);
      && p.userId == userId && p.createdAt == now
      && (forall i :: 0 <= i < |CreateKeys| && CreateKeys[i] in data ==>
            ColumnAt(p, i) == data[CreateKeys[i]])
      && (forall i :: 0 <= i < |CreateKeys| && CreateKeys[i] !in data ==>
            ColumnAt(p, i) == CreateDefaults(defaultTitle)[i])
  {
    var p := CreatePayload(userId, data, defaultTitle, now);
    forall i | 0 <= i < |CreateKeys|
      ensures ColumnAt(p, i) == Get(data, CreateKeys[i], CreateDefaults(defaultTitle)[i])
    {
    }
  }

  const UpdatedAtField := "updated_at"

  /** The whitelist of `update_interview_session`; each field maps to itself. */
  const UpdateFields: seq<string> := [
    "status", "interview_plan", "current_question_idx", "interview_notes", "conversation_history",
    "resume_content", "job_description", "total_questions", "average_score", "final_report", "title"]

  /** `update_interview_session`'s payload: the update time, then every whitelisted field
      the session data has, copied as it is. `now` stands for the clock-derived string. */
  method UpdatePayload(data: Payload, now: string) returns (p: Payload)
    ensures p.Keys == {UpdatedAtField} + set f | f in UpdateFields && f in data
    ensures p[UpdatedAtField] == PyStr(now)
    ensures forall f :: f in UpdateFields && f in data ==> p[f] == data[f]
  {
    p := map[UpdatedAtField := PyStr(now)];
    var i := 0;
    while i < |UpdateFields|
      invariant 0 <= i <= |UpdateFields|
      invariant p.Keys == {UpdatedAtField} + set f | f in UpdateFields[..i] && f in data
      invariant p[UpdatedAtField] == PyStr(now)
      invariant forall f :: f in UpdateFields[..i] && f in data ==> p[f] == data[f]
    {
      var key := UpdateFields[i];
      assert UpdateFields[..i + 1] == UpdateFields[..i] + [key];
      if key in data {
        p := p[key := data[key]];
      }
      i := i + 1;
    }
    assert UpdateFields[..i] == UpdateFields;
  }

  // --------------------------------------------------------------- dashboard

  /** One session row as the dashboard query selects it. */
  datatype SessionRow = SessionRow(
    id: string, status: Option<string>, averageScore: Option<real>,
    totalQuestions: Option<int>, createdAt: Option<string>, title: Option<string>)

  datatype DashboardStats = DashboardStats(
    totalSessions: nat, completedSessions: nat, inProgressSessions: nat,
    overallAvgScore: real, totalQuestionsAnswered: int, sessions: seq<SessionRow>)

  const CompletedStatus := "completed"
  const InProgressStatus := "in_progress"
  const DashboardSessionLimit := 10

  function CountStatus(rows: seq<SessionRow>, status: string): (n: nat)
    ensures n <= |rows|
    decreases |rows|
  {
    if |rows| == 0 then 0
    else CountStatus(rows[..|rows| - 1], status) + (if rows[|rows| - 1].status == Some(status) then 1 else 0)
  }

  /** The average scores that are set, in order. */
  function AverageScores(rows: seq<SessionRow>): seq<real>
    decreases |rows|
  {
    if |rows| == 0 then []
    else AverageScores(rows[..|rows| - 1])
         + (if rows[|rows| - 1].averageScore.Some? then [rows[|rows| - 1].averageScore.value] else [])
  }

  function SumReals(xs: seq<real>): real
    decreases |xs|
  {
    if |xs| == 0 then 0.0 else SumReals(xs[..|xs| - 1]) + xs[|xs| - 1]
  }

  /** The sum of the question totals that are set and non-zero. */
  function QuestionsAnswered(rows: seq<SessionRow>): int
    decreases |rows|
  {
    if |rows| == 0 then 0
    else
      var q := rows[|rows| - 1].totalQuestions;
      QuestionsAnswered(rows[..|rows| - 1]) + (if q.Some? && q.value != 0 then q.value else 0)
  }

  /** `get_user_dashboard_stats` on the query outcome: the counts, the average of the set
      average scores and the questions answered (both 0 without a completed session),
      and the first ten rows; a failed query gives all zeros. */
  function DashboardOf(query: Result<seq<SessionRow>, string>): (r: DashboardStats)
    ensures query.Err? ==> r == DashboardStats(0, 0, 0, 0.0, 0, [])
    ensures query.Ok? ==> r.totalSessions == |query.value|
    ensures query.Ok? ==> r.sessions == PyStr.Slice(query.value, 0, DashboardSessionLimit)
    ensures r.completedSessions == 0 ==> r.overallAvgScore == 0.0 && r.totalQuestionsAnswered == 0
  {
    match query
    case Err(_) => DashboardStats(0, 0, 0, 0.0, 0, [])
    case Ok(rows) =>
      var completed := CountStatus(rows, CompletedStatus);
      var scores := AverageScores(rows);
      var avg := if completed > 0 && |scores| > 0 then SumReals(scores) / (|scores| as real) else 0.0;
      var answered := if completed > 0 then QuestionsAnswered(rows) else 0;
      DashboardStats(|rows|, completed, CountStatus(rows, InProgressStatus), avg, answered,
                     PyStr.Slice(rows, 0, DashboardSessionLimit))
  }

  /** A row has at most one status, so the two counts never exceed the total. */
  lemma {:induction false} StatusCountsBounded(rows: seq<SessionRow>)
    ensures CountStatus(rows, CompletedStatus) + CountStatus(rows, InProgressStatus) <= |rows|
    decreases |rows|
  {
    if |rows| > 0 {
      StatusCountsBounded(rows[..|rows| - 1]);
    }
  }

  /** The dashboard's session counts are consistent and its list is the first ten rows. */
  lemma DashboardConsistent(rows: seq<SessionRow>)
    ensures var d := DashboardOf(Ok(rows));
      && d.completedSessions + d.inProgressSessions <= d.totalSessions
      && d.sessions == rows[..if |rows| < DashboardSessionLimit then |rows| else DashboardSessionLimit]
  {
    StatusCountsBounded(rows);
    PyStr.SlicePrefix(rows, DashboardSessionLimit);
  }
}
