/**
 * The interview workflow: one mutable session record and the steps that update it in
 * place — document preparation, planning, question selection, context retrieval,
 * answer analysis, note taking, the continue/complete decision and the final report.
 */
module Workflow {
  import opened Wrappers
  import opened Records
  import Planner
  import ResponseAnalyzer
  import ReportGenerator

  /** The calls the workflow makes into code outside this model. */
  datatype Services = Services(
    planModel: Planner.PlanPrompt -> LlmReply,
    parseJson: string -> Planner.ParseOutcome,
    getContext: string -> Retrieval,
    analysisModel: ResponseAnalyzer.AnalysisPrompt -> LlmReply,
    reportModel: ReportGenerator.ReportPrompt -> LlmReply)

  /** What the retriever gives for a query: the joined page texts of the closest chunks,
      or the exception the embedding call raised. */
  datatype Retrieval = Retrieved(context: string) | RetrievalFailed(message: string)

  /** How a step ends: normally, or with the exception it lets escape. */
  datatype Outcome = Completed | IndexError | KeyError | RetrievalError

  const PlanAction := "plan"
  const GenerateQuestionAction := "generate_question"
  const CompleteAction := "complete"
  const ContinueRoute := "continue"
  const CompleteRoute := "complete"

  /** The session record; every step updates it in place. */
  class InterviewState {
    var resumeContent: string
    var jobDescription: string
    var interviewPlan: seq<Question>
    var currentQuestionIdx: nat
    var currentQuestion: string
    var candidateResponse: string
    var interviewNotes: seq<Note>
    var conversationHistory: seq<Turn>
    var interviewReport: string
    var ragContext: string
    var nextAction: string
    var isComplete: bool
    /** Absent from the initial record; read with the default "". */
    var currentAnalysis: string

    /**
     * The answer-path invariant: the index never passes the plan, there is one note per
     * answered question and two turns per note — the question asked, then the answer
     * given — and every note carries a score.
     */
    ghost predicate Valid()
      reads this
    {
      && currentQuestionIdx <= |interviewPlan|
      && |interviewNotes| == currentQuestionIdx
      && |conversationHistory| == 2 * currentQuestionIdx
      && (forall i :: 0 <= i < |interviewNotes| ==>
            && interviewNotes[i].score.Some?
            && conversationHistory[2 * i] == Turn(InterviewerRole, interviewNotes[i].question)
            && conversationHistory[2 * i + 1] == Turn(CandidateRole, interviewNotes[i].response))
    }

    /** The record an interactive session starts from, before any step has run. */
    constructor (resumeContent: string, jobDescription: string)
      ensures this.resumeContent == resumeContent && this.jobDescription == jobDescription
      ensures interviewPlan == [] && currentQuestionIdx == 0 && currentQuestion == ""
      ensures candidateResponse == "" && interviewNotes == [] && conversationHistory == []
      ensures interviewReport == "" && ragContext == "" && nextAction == "" && !isComplete
      ensures currentAnalysis == ""
      ensures Valid()
    {
      this.resumeContent := resumeContent;
      this.jobDescription := jobDescription;
      interviewPlan := [];
      currentQuestionIdx := 0;
      currentQuestion := "";
      candidateResponse := "";
      interviewNotes := [];
      conversationHistory := [];
      interviewReport := "";
      ragContext := "";
      nextAction := "";
      isComplete := false;
      currentAnalysis := "";
    }

    /** `_process_documents`: empty history, notes and index are reset to their (equal)
        empty values, anything else is kept; the next action becomes "plan". */
    method ProcessDocuments()
      modifies this
      ensures nextAction == PlanAction
      ensures interviewNotes == old(interviewNotes) && conversationHistory == old(conversationHistory)
      ensures currentQuestionIdx == old(currentQuestionIdx) && interviewPlan == old(interviewPlan)
      ensures currentQuestion == old(currentQuestion) && candidateResponse == old(candidateResponse)
      ensures resumeContent == old(resumeContent) && jobDescription == old(jobDescription)
      ensures interviewReport == old(interviewReport) && ragContext == old(ragContext)
      ensures isComplete == old(isComplete) && currentAnalysis == old(currentAnalysis)
      ensures old(Valid()) ==> Valid()
    {
      if |conversationHistory| == 0 {
        conversationHistory := [];
      }
      if |interviewNotes| == 0 {
        interviewNotes := [];
      }
      if currentQuestionIdx == 0 {
        currentQuestionIdx := 0;
      }
      nextAction := PlanAction;
    }

    /** `_create_interview_plan`: the planner's plan for three questions replaces the plan. */
    method CreateInterviewPlan(svc: Services)
      modifies this
      ensures interviewPlan == Planner.CreateInterviewPlan(resumeContent, jobDescription,
                                 Planner.DefaultQuestionCount, svc.planModel, svc.parseJson)
      ensures 1 <= |interviewPlan| <= Planner.DefaultQuestionCount + Planner.Tolerance
      ensures nextAction == GenerateQuestionAction
      ensures interviewNotes == old(interviewNotes) && conversationHistory == old(conversationHistory)
      ensures currentQuestionIdx == old(currentQuestionIdx) && currentQuestion == old(currentQuestion)
      ensures candidateResponse == old(candidateResponse)
      ensures resumeContent == old(resumeContent) && jobDescription == old(jobDescription)
      ensures interviewReport == old(interviewReport) && ragContext == old(ragContext)
      ensures isComplete == old(isComplete) && currentAnalysis == old(currentAnalysis)
      ensures old(Valid()) && currentQuestionIdx == 0 ==> Valid()
    {
      interviewPlan := Planner.CreateInterviewPlan(resumeContent, jobDescription,
                         Planner.DefaultQuestionCount, svc.planModel, svc.parseJson);
      nextAction := GenerateQuestionAction;
    }

    /** `_generate_next_question`: past the plan the session is marked complete; otherwise
        the question at the index becomes the current one. The index never moves. */
    method GenerateNextQuestion()
      modifies this
      ensures currentQuestionIdx == old(currentQuestionIdx) && interviewPlan == old(interviewPlan)
      ensures old(currentQuestionIdx) >= |interviewPlan| ==>
        isComplete && nextAction == CompleteAction && currentQuestion == old(currentQuestion)
      ensures old(currentQuestionIdx) < |interviewPlan| ==>
        currentQuestion == interviewPlan[currentQuestionIdx].question
        && isComplete == old(isComplete) && nextAction == old(nextAction)
      ensures interviewNotes == old(interviewNotes) && conversationHistory == old(conversationHistory)
      ensures candidateResponse == old(candidateResponse) && currentAnalysis == old(currentAnalysis)
      ensures resumeContent == old(resumeContent) && jobDescription == old(jobDescription)
      ensures interviewReport == old(interviewReport) && ragContext == old(ragContext)
      ensures old(Valid()) ==> Valid()
    {
      if currentQuestionIdx >= |interviewPlan| {
        isComplete := true;
        nextAction := CompleteAction;
        return;
      }
      currentQuestion := interviewPlan[currentQuestionIdx].question;
    }

    /** The query `_retrieve_context` hands to the retriever: question, one space, answer. */
    static function ContextQuery(question: string, response: string): (q: string)
      ensures |q| == |question| + 1 + |response|
      ensures q[..|question|] == question && q[|question|] == ' ' && q[|question| + 1..] == response
    {
      question + " " + response
    }

    /** `_retrieve_context`: the retrieved context for the current exchange. A failing
        retriever raises before the context is written. */
    method RetrieveContext(svc: Services) returns (outcome: Outcome)
      modifies this
      ensures var reply := svc.getContext(ContextQuery(currentQuestion, candidateResponse));
        && (reply.Retrieved? ==> outcome == Completed && ragContext == reply.context)
        && (reply.RetrievalFailed? ==> outcome == RetrievalError && ragContext == old(ragContext))
      ensures currentQuestionIdx == old(currentQuestionIdx) && interviewPlan == old(interviewPlan)
      ensures interviewNotes == old(interviewNotes) && conversationHistory == old(conversationHistory)
      ensures currentQuestion == old(currentQuestion) && candidateResponse == old(candidateResponse)
      ensures resumeContent == old(resumeContent) && jobDescription == old(jobDescription)
      ensures interviewReport == old(interviewReport) && currentAnalysis == old(currentAnalysis)
      ensures isComplete == old(isComplete) && nextAction == old(nextAction)
      ensures old(Valid()) ==> Valid()
    {
      var reply := svc.getContext(ContextQuery(currentQuestion, candidateResponse));
      if reply.RetrievalFailed? {
        return RetrievalError;
      }
      ragContext := reply.context;
      return Completed;
    }

    /** `_analyze_response`: without an answer nothing changes; otherwise the analysis of
        the current exchange becomes the current analysis. */
    method AnalyzeResponse(svc: Services)
      modifies this
      ensures old(candidateResponse) == "" ==> currentAnalysis == old(currentAnalysis)
      ensures old(candidateResponse) != "" ==>
        currentAnalysis == ResponseAnalyzer.AnalyzeResponse(currentQuestion, candidateResponse,
                             ragContext, conversationHistory, svc.analysisModel)
      ensures currentQuestionIdx == old(currentQuestionIdx) && interviewPlan == old(interviewPlan)
      ensures interviewNotes == old(interviewNotes) && conversationHistory == old(conversationHistory)
      ensures currentQuestion == old(currentQuestion) && candidateResponse == old(candidateResponse)
      ensures resumeContent == old(resumeContent) && jobDescription == old(jobDescription)
      ensures interviewReport == old(interviewReport) && ragContext == old(ragContext)
      ensures isComplete == old(isComplete) && nextAction == old(nextAction)
      ensures old(Valid()) ==> Valid()
    {
      if candidateResponse == "" {
        return;
      }
      currentAnalysis := ResponseAnalyzer.AnalyzeResponse(currentQuestion, candidateResponse,
                           ragContext, conversationHistory, svc.analysisModel);
    }

    /**
     * `_take_notes`: without an answer nothing changes. With one, the note for the
     * current exchange (category from the plan item at the index, "general" if absent)
     * is appended, the question and the answer are appended to the history as two
     * turns, and the index moves on by one. An index past the plan raises `IndexError`
     * before anything is written.
     */
    method TakeNotes() returns (outcome: Outcome)
      modifies this
      ensures old(candidateResponse) == "" ==> outcome == Completed
      ensures old(candidateResponse) != "" && old(currentQuestionIdx) >= |interviewPlan| ==> outcome == IndexError
      ensures old(candidateResponse) != "" && old(currentQuestionIdx) < |interviewPlan| ==>
        && outcome == Completed
        && currentQuestionIdx == old(currentQuestionIdx) + 1
        && interviewNotes == old(interviewNotes) + [ResponseAnalyzer.CreateInterviewNote(
             currentQuestion, candidateResponse, currentAnalysis,
             CategoryOf(interviewPlan[old(currentQuestionIdx)]))]
        && conversationHistory == old(conversationHistory)
             + [Turn(InterviewerRole, currentQuestion), Turn(CandidateRole, candidateResponse)]
      ensures outcome != Completed || old(candidateResponse) == "" ==>
        && currentQuestionIdx == old(currentQuestionIdx)
        && interviewNotes == old(interviewNotes) && conversationHistory == old(conversationHistory)
      ensures interviewPlan == old(interviewPlan) && currentQuestion == old(currentQuestion)
      ensures candidateResponse == old(candidateResponse) && currentAnalysis == old(currentAnalysis)
      ensures resumeContent == old(resumeContent) && jobDescription == old(jobDescription)
      ensures interviewReport == old(interviewReport) && ragContext == old(ragContext)
      ensures isComplete == old(isComplete) && nextAction == old(nextAction)
      ensures old(Valid()) ==> Valid()
    {
      if candidateResponse == "" {
        return Completed;
      }
      if currentQuestionIdx >= |interviewPlan| {
        return IndexError;
      }
      ghost var wasValid := Valid();
      var note := ResponseAnalyzer.CreateInterviewNote(currentQuestion, candidateResponse,
                    currentAnalysis, CategoryOf(interviewPlan[currentQuestionIdx]));
      ghost var oldNotes, oldHistory := interviewNotes, conversationHistory;
      interviewNotes := interviewNotes + [note];
      conversationHistory := conversationHistory
        + [Turn(InterviewerRole, currentQuestion), Turn(CandidateRole, candidateResponse)];
      currentQuestionIdx := currentQuestionIdx + 1;
      if wasValid {
        assert forall i :: 0 <= i < |oldNotes| ==>
          interviewNotes[i] == oldNotes[i] && conversationHistory[2 * i] == oldHistory[2 * i]
          && conversationHistory[2 * i + 1] == oldHistory[2 * i + 1];
      }
      return Completed;
    }

    /** `_should_continue_interview`: "complete" exactly when the index has reached the
        end of the plan, "continue" otherwise. */
    function ShouldContinue(): (route: string)
      reads this
      ensures route == CompleteRoute <==> currentQuestionIdx >= |interviewPlan|
      ensures route == ContinueRoute <==> currentQuestionIdx < |interviewPlan|
    {
      if currentQuestionIdx >= |interviewPlan| then CompleteRoute else ContinueRoute
    }

    /** `_generate_report`: the report over the notes so far, and the session is complete.
        A note without a score raises `KeyError` before anything is written. */
    method GenerateReport(svc: Services) returns (outcome: Outcome)
      modifies this
      ensures var r := ReportGenerator.GenerateReport(old(resumeContent), old(jobDescription),
                         old(interviewNotes), svc.reportModel);
        && (r.Ok? ==> outcome == Completed && interviewReport == r.value && isComplete)
        && (r.Err? ==> outcome == KeyError && interviewReport == old(interviewReport)
                       && isComplete == old(isComplete))
      ensures old(Valid()) ==> outcome == Completed
      ensures currentQuestionIdx == old(currentQuestionIdx) && interviewPlan == old(interviewPlan)
      ensures interviewNotes == old(interviewNotes) && conversationHistory == old(conversationHistory)
      ensures currentQuestion == old(currentQuestion) && candidateResponse == old(candidateResponse)
      ensures resumeContent == old(resumeContent) && jobDescription == old(jobDescription)
      ensures ragContext == old(ragContext) && currentAnalysis == old(currentAnalysis)
      ensures nextAction == old(nextAction)
      ensures old(Valid()) ==> Valid()
    {
      if Valid() {
        assert ReportGenerator.AllScored(interviewNotes);
      }
      ReportGenerator.NotesTextFailsIffUnscored(interviewNotes);
      var r := ReportGenerator.GenerateReport(resumeContent, jobDescription, interviewNotes, svc.reportModel);
      if r.Err? {
        return KeyError;
      }
      interviewReport := r.value;
      isComplete := true;
      return Completed;
    }
  }
}
