/**
 * The interview planner used by the interview system: the model's reply is cleaned
 * of a Markdown fence, parsed, validated, trimmed, and replaced by a fixed fallback
 * question set whenever anything goes wrong.
 */
module Planner {
  import opened Wrappers
  import opened Records
  import PyStr

  /** The planner is built without a configuration, so it always asks for three. */
  const DefaultQuestionCount := 3
  /** How many extra questions the model may return before the plan is trimmed. */
  const Tolerance := 2

  /** The variables of the planning prompt. */
  datatype PlanPrompt = PlanPrompt(resumeContent: string, jobDescription: string, numberOfQuestions: int)

  /** What `json.loads` makes of the cleaned reply, as far as the planner looks at it. */
  datatype ParseOutcome = ParseError | NotList | JsonList(items: seq<Question>)

  /**
   * Strip the reply, then drop a leading "```json" (7 characters) or "```" (3) and the
   * last 3 characters, with Python's slice clamping.
   */
  function CleanJsonResponse(response: string): (r: string)
    ensures var t := PyStr.Strip(response);
      && (!PyStr.StartsWith(t, "```") ==> r == t)
      && (PyStr.StartsWith(t, "```json") ==> r == if |t| >= 10 then t[7..|t| - 3] else "")
      && (PyStr.StartsWith(t, "```") && !PyStr.StartsWith(t, "```json") ==>
            r == if |t| >= 6 then t[3..|t| - 3] else "")
  {
    var t := PyStr.Strip(response);
    if PyStr.StartsWith(t, "```json") then PyStr.Slice(t, 7, -3)
    else if PyStr.StartsWith(t, "```") then PyStr.Slice(t, 3, -3)
    else t
  }

  /** A body wrapped in a "```json" fence comes back exactly. */
  lemma CleanJsonFenceRoundTrip(body: string)
    ensures CleanJsonResponse("```json" + body + "```") == body
  {
    var fenced := "```json" + body + "```";
    PyStr.StripNoEdgeSpace(fenced);
    assert PyStr.StartsWith(fenced, "```json");
    assert fenced[7..|fenced| - 3] == body;
  }

  /** The fixed fallback pool: five generic questions in non-increasing priority. */
  const FallbackPool: seq<Question> := [
    Question("Tell me about your background and experience relevant to this role.",
      Some("experience"), 5, ["communication"], ["Can you elaborate on specific projects?"]),
    Question("What technical skills do you have that match this position?",
      Some("technical"), 4, ["technical_knowledge"], ["Can you provide specific examples?"]),
    Question("Describe a challenging problem you solved recently.",
      Some("problem_solving"), 4, ["analytical_thinking"], ["What was your approach?"]),
    Question("Why are you interested in this position and our company?",
      Some("behavioral"), 3, ["motivation", "cultural_fit"], ["What specifically attracts you to this role?"]),
    Question("Where do you see yourself in the next 3-5 years?",
      Some("behavioral"), 2, ["career_planning", "ambition"], ["How does this role fit into your plans?"])
  ]

  /** `all_fallback_questions[:n]`. */
  function FallbackQuestions(n: int): (r: seq<Question>)
    ensures n >= 0 ==> r == FallbackPool[..if n <= 5 then n else 5]
    ensures n >= 1 ==> 1 <= |r| <= n
  {
    PyStr.Slice(FallbackPool, 0, n)
  }

  /** The pool is ordered by priority and covers the four question categories. */
  lemma FallbackPoolShape()
    ensures |FallbackPool| == 5
    ensures forall i, j :: 0 <= i < j < 5 ==> FallbackPool[i].priority >= FallbackPool[j].priority
    ensures (set q | q in FallbackPool :: CategoryOf(q))
          == {"experience", "technical", "problem_solving", "behavioral"}
  {
    var cats := set q | q in FallbackPool :: CategoryOf(q);
    assert CategoryOf(FallbackPool[0]) in cats && CategoryOf(FallbackPool[1]) in cats;
    assert CategoryOf(FallbackPool[2]) in cats && CategoryOf(FallbackPool[3]) in cats;
  }

  /** With the default count the fallback plan has three questions in three categories. */
  lemma FallbackDefaultCategories()
    ensures |FallbackQuestions(DefaultQuestionCount)| == 3
    ensures |set q | q in FallbackQuestions(DefaultQuestionCount) :: CategoryOf(q)| == 3
  {
    var r := FallbackQuestions(DefaultQuestionCount);
    assert r == FallbackPool[..3];
    var cats := set q | q in r :: CategoryOf(q);
    assert cats == {"experience", "technical", "problem_solving"} by {
      assert CategoryOf(r[0]) in cats && CategoryOf(r[1]) in cats && CategoryOf(r[2]) in cats;
    }
  }

  /** Validation and trimming of a parsed plan; `None` means "raise, then fall back". */
  function ValidatedPlan(parsed: ParseOutcome, n: int): (r: Option<seq<Question>>)
  {
    match parsed
    case JsonList(items) =>
      if |items| == 0 then None
      else if |items| > n + Tolerance then Some(PyStr.Slice(items, 0, n))
      else Some(items)
    case _ => None
  }

  /**
   * The whole planning step: ask the model, clean and parse its reply, keep a
   * validated plan, and fall back to the fixed pool on a model failure, a parse
   * error, a non-list or an empty list. For a positive count the plan is never
   * empty and never longer than the count plus the tolerance.
   */
  function CreateInterviewPlan(resumeContent: string, jobDescription: string, n: int,
                               llm: PlanPrompt -> LlmReply, parse: string -> ParseOutcome): (r: seq<Question>)
    ensures n >= 1 ==> 1 <= |r| <= n + Tolerance
  {
    match llm(PlanPrompt(resumeContent, jobDescription, n))
    case Failed(_) => FallbackQuestions(n)
    case Reply(text) =>
      match ValidatedPlan(parse(CleanJsonResponse(text)), n)
      case Some(plan) => plan
      case None => FallbackQuestions(n)
  }

  /** A parsed list of 1 to n + 2 questions is used unchanged, in order. */
  lemma {:induction false} PlanKeptWhole(resumeContent: string, jobDescription: string, n: int,
                                         llm: PlanPrompt -> LlmReply, parse: string -> ParseOutcome)
    requires llm(PlanPrompt(resumeContent, jobDescription, n)).Reply?
    requires parse(CleanJsonResponse(llm(PlanPrompt(resumeContent, jobDescription, n)).text)).JsonList?
    requires var items := parse(CleanJsonResponse(llm(PlanPrompt(resumeContent, jobDescription, n)).text)).items;
      1 <= |items| <= n + Tolerance
    ensures CreateInterviewPlan(resumeContent, jobDescription, n, llm, parse)
         == parse(CleanJsonResponse(llm(PlanPrompt(resumeContent, jobDescription, n)).text)).items
  {
  }

  /** A parsed list longer than n + 2 is cut to its first n questions. */
  lemma {:induction false} PlanTrimmed(resumeContent: string, jobDescription: string, n: int,
                                       llm: PlanPrompt -> LlmReply, parse: string -> ParseOutcome)
    requires n >= 0
    requires llm(PlanPrompt(resumeContent, jobDescription, n)).Reply?
    requires parse(CleanJsonResponse(llm(PlanPrompt(resumeContent, jobDescription, n)).text)).JsonList?
    requires |parse(CleanJsonResponse(llm(PlanPrompt(resumeContent, jobDescription, n)).text)).items| > n + Tolerance
    ensures CreateInterviewPlan(resumeContent, jobDescription, n, llm, parse)
         == parse(CleanJsonResponse(llm(PlanPrompt(resumeContent, jobDescription, n)).text)).items[..n]
  {
  }

  /** Every failure path ends in the fallback set. */
  lemma {:induction false} PlanFallsBack(resumeContent: string, jobDescription: string, n: int,
                                         llm: PlanPrompt -> LlmReply, parse: string -> ParseOutcome)
    requires var reply := llm(PlanPrompt(resumeContent, jobDescription, n));
      || reply.Failed?
      || parse(CleanJsonResponse(reply.text)) == ParseError
      || parse(CleanJsonResponse(reply.text)) == NotList
      || parse(CleanJsonResponse(reply.text)) == JsonList([])
    ensures CreateInterviewPlan(resumeContent, jobDescription, n, llm, parse) == FallbackQuestions(n)
  {
  }

  /** The plan length bound is n + 2, not n: a model reply of n + 2 questions is kept whole. */
  lemma PlanMayExceedCount(q: Question, resumeContent: string, jobDescription: string)
    ensures var reply := [q, q, q, q, q];
      CreateInterviewPlan(resumeContent, jobDescription, DefaultQuestionCount,
        _ => Reply("[...]"), _ => JsonList(reply)) == reply
  {
  }

  /** `plan[idx]['question']`, or `None` once the index has run past the plan. */
  function NextQuestion(plan: seq<Question>, idx: nat): (r: Option<string>)
    ensures r == None <==> idx >= |plan|
    ensures r.Some? ==> r.value == plan[idx].question
  {
    if idx >= |plan| then None else Some(plan[idx].question)
  }
}

/**
 * The older planner at the repository root: the same cleaning, but an invalid reply
 * raises instead of falling back, and the plan is never trimmed.
 */
module StrictPlanner {
  import opened Wrappers
  import opened Records
  import Planner

  /** The older prompt has no question count. */
  datatype PlanPrompt = PlanPrompt(resumeContent: string, jobDescription: string)

  /** The exceptions the older planner lets escape. */
  datatype PlanError = ModelError(message: string) | JsonDecodeError | InvalidPlanFormat

  /**
   * The plan is exactly the parsed list when that is a non-empty list; otherwise the
   * model's exception, the decode error or "Invalid interview plan format" is raised.
   */
  function CreateInterviewPlan(resumeContent: string, jobDescription: string,
                               llm: PlanPrompt -> LlmReply, parse: string -> Planner.ParseOutcome)
    : (r: Result<seq<Question>, PlanError>)
    ensures r.Ok? ==> |r.value| >= 1
    ensures var reply := llm(PlanPrompt(resumeContent, jobDescription));
      r.Ok? <==> reply.Reply? && parse(Planner.CleanJsonResponse(reply.text)).JsonList?
                 && parse(Planner.CleanJsonResponse(reply.text)).items != []
    ensures r.Ok? ==> parse(Planner.CleanJsonResponse(llm(PlanPrompt(resumeContent, jobDescription)).text))
                      == Planner.JsonList(r.value)
  {
    match llm(PlanPrompt(resumeContent, jobDescription))
    case Failed(msg) => Err(ModelError(msg))
    case Reply(text) =>
      match parse(Planner.CleanJsonResponse(text))
      case ParseError => Err(JsonDecodeError)
      case NotList => Err(InvalidPlanFormat)
      case JsonList(items) => if |items| == 0 then Err(InvalidPlanFormat) else Ok(items)
  }

  /** A plan the older planner returns always has a first question. */
  lemma StrictPlanHasFirstQuestion(resumeContent: string, jobDescription: string,
                                   llm: PlanPrompt -> LlmReply, parse: string -> Planner.ParseOutcome)
    requires CreateInterviewPlan(resumeContent, jobDescription, llm, parse).Ok?
    ensures var plan := CreateInterviewPlan(resumeContent, jobDescription, llm, parse).value;
      Planner.NextQuestion(plan, 0) == Some(plan[0].question)
      && Planner.NextQuestion(plan, |plan|) == None
  {
  }
}
