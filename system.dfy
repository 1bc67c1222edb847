/**
 * The interactive interview facade: starting a session from two document paths,
 * handing out the next question, processing an answer and producing the final report.
 * Each entry point drives the workflow steps on the one session record.
 */
module InterviewSystem {
  import opened Wrappers
  import opened Records
  import PyStr
  import Planner
  import ResponseAnalyzer
  import ReportGenerator
  import DP = DocumentProcessor
  import opened Workflow

  /**
   * `start_interactive_interview`: the documents at both paths are loaded and their texts
   * extracted (a load failure escapes as the loader's error); a fresh session record is
   * built from them, then prepared and given its plan. The new session has answered
   * nothing yet and is ready for its first question.
   */
  method StartInteractiveInterview(resumePath: string, jobDescPath: string,
                                   pdfLoader: string -> DP.LoaderOutcome,
                                   textLoader: string -> DP.LoaderOutcome,
                                   svc: Services)
    returns (r: Result<InterviewState, DP.LoadError>)
    ensures var resume := DP.ResumeLoad(resumePath, pdfLoader, textLoader);
      var job := textLoader(jobDescPath);
      && (!resume.Pages? ==> r == Err(DP.LoadErrorOf(resume)))
      && (resume.Pages? && !job.Pages? ==> r == Err(DP.LoadErrorOf(job)))
      && (resume.Pages? && job.Pages? ==>
            && r.Ok?
            && r.value.resumeContent == PyStr.Join("\n", DP.Contents(resume.docs))
            && r.value.jobDescription == PyStr.Join("\n", DP.Contents(job.docs)))
    ensures r.Ok? ==>
      && fresh(r.value) && r.value.Valid()
      && r.value.currentQuestionIdx == 0 && r.value.interviewNotes == []
      && r.value.conversationHistory == [] && !r.value.isComplete
      && r.value.interviewPlan == Planner.CreateInterviewPlan(r.value.resumeContent,
           r.value.jobDescription, Planner.DefaultQuestionCount, svc.planModel, svc.parseJson)
      && 1 <= |r.value.interviewPlan|
      && r.value.nextAction == GenerateQuestionAction
  {
    var loaded := DP.LoadDocuments(resumePath, jobDescPath, pdfLoader, textLoader);
    if loaded.Err? {
      return Err(loaded.error);
    }
    var resume := DP.ResumeLoad(resumePath, pdfLoader, textLoader);
    var job := textLoader(jobDescPath);
    DP.ExtractOfLoaded(resume.docs, job.docs);
    var content := DP.ExtractContent(loaded.value);
    var state := new InterviewState(content.resumeContent, content.jobDescription);
    state.ProcessDocuments();
    state.CreateInterviewPlan(svc);
    return Ok(state);
  }

  /**
   * `get_next_question`: nothing once the plan is used up (the session is left as it
   * is); otherwise the question at the index becomes current and is returned, unless
   * the session was already marked complete. Asking never moves the index.
   */
  method GetNextQuestion(state: InterviewState) returns (q: Option<string>)
    modifies state
    ensures state.currentQuestionIdx == old(state.currentQuestionIdx)
    ensures state.interviewPlan == old(state.interviewPlan)
    ensures old(state.currentQuestionIdx) >= |old(state.interviewPlan)| ==> q == None && unchanged(state)
    ensures old(state.currentQuestionIdx) < |old(state.interviewPlan)| ==>
      && state.currentQuestion == state.interviewPlan[state.currentQuestionIdx].question
      && q == (if old(state.isComplete) then None else Some(state.currentQuestion))
    ensures state.interviewNotes == old(state.interviewNotes)
    ensures state.conversationHistory == old(state.conversationHistory)
    ensures state.isComplete == old(state.isComplete) && state.nextAction == old(state.nextAction)
    ensures state.candidateResponse == old(state.candidateResponse)
    ensures state.currentAnalysis == old(state.currentAnalysis) && state.ragContext == old(state.ragContext)
    ensures state.resumeContent == old(state.resumeContent) && state.jobDescription == old(state.jobDescription)
    ensures state.interviewReport == old(state.interviewReport)
    ensures old(state.Valid()) ==> state.Valid()
  {
    if state.currentQuestionIdx >= |state.interviewPlan| {
      return None;
    }
    state.GenerateNextQuestion();
    q := if state.isComplete then None else Some(state.currentQuestion);
  }

  /**
   * `process_candidate_answer`: the answer becomes the current response; context is
   * retrieved for the exchange, the answer is analysed against it and the history so
   * far, and the note for it is taken. An empty answer records nothing. A failing
   * retriever raises after the answer is stored and before anything else is written.
   */
  method ProcessCandidateAnswer(state: InterviewState, answer: string, svc: Services)
    returns (outcome: Outcome)
    modifies state
    ensures state.candidateResponse == answer
    ensures var reply := svc.getContext(InterviewState.ContextQuery(old(state.currentQuestion), answer));
      reply.RetrievalFailed? ==>
        && outcome == RetrievalError
        && state.ragContext == old(state.ragContext)
        && state.currentAnalysis == old(state.currentAnalysis)
        && state.currentQuestionIdx == old(state.currentQuestionIdx)
        && state.interviewNotes == old(state.interviewNotes)
        && state.conversationHistory == old(state.conversationHistory)
    ensures var reply := svc.getContext(InterviewState.ContextQuery(old(state.currentQuestion), answer));
      reply.Retrieved? ==> state.ragContext == reply.context
    ensures Retrieves(svc, old(state.currentQuestion), answer) && answer == "" ==>
      && outcome == Completed
      && state.currentAnalysis == old(state.currentAnalysis)
      && state.currentQuestionIdx == old(state.currentQuestionIdx)
      && state.interviewNotes == old(state.interviewNotes)
      && state.conversationHistory == old(state.conversationHistory)
    ensures Retrieves(svc, old(state.currentQuestion), answer) && answer != "" ==>
      state.currentAnalysis == ResponseAnalyzer.AnalyzeResponse(old(state.currentQuestion), answer,
        state.ragContext, old(state.conversationHistory), svc.analysisModel)
    ensures Retrieves(svc, old(state.currentQuestion), answer) && answer != ""
            && old(state.currentQuestionIdx) >= |old(state.interviewPlan)| ==>
      && outcome == IndexError
      && state.currentQuestionIdx == old(state.currentQuestionIdx)
      && state.interviewNotes == old(state.interviewNotes)
      && state.conversationHistory == old(state.conversationHistory)
    ensures Retrieves(svc, old(state.currentQuestion), answer) && answer != ""
            && old(state.currentQuestionIdx) < |old(state.interviewPlan)| ==>
      var question := old(state.currentQuestion);
      var analysis := state.currentAnalysis;
      && outcome == Completed
      && state.currentQuestionIdx == old(state.currentQuestionIdx) + 1
      && state.interviewNotes == old(state.interviewNotes) + [ResponseAnalyzer.CreateInterviewNote(
           question, answer, analysis, CategoryOf(old(state.interviewPlan)[old(state.currentQuestionIdx)]))]
      && state.conversationHistory == old(state.conversationHistory)
           + [Turn(InterviewerRole, question), Turn(CandidateRole, answer)]
    ensures state.interviewPlan == old(state.interviewPlan)
    ensures state.currentQuestion == old(state.currentQuestion)
    ensures state.isComplete == old(state.isComplete) && state.nextAction == old(state.nextAction)
    ensures state.resumeContent == old(state.resumeContent) && state.jobDescription == old(state.jobDescription)
    ensures state.interviewReport == old(state.interviewReport)
    ensures old(state.Valid()) ==> state.Valid()
  {
    state.candidateResponse := answer;
    outcome := state.RetrieveContext(svc);
    if outcome != Completed {
      return;
    }
    state.AnalyzeResponse(svc);
    outcome := state.TakeNotes();
  }

  /** The retriever answers the query for this exchange without raising. */
  predicate Retrieves(svc: Services, question: string, answer: string) {
    svc.getContext(InterviewState.ContextQuery(question, answer)).Retrieved?
  }

  /**
   * `generate_final_report`: the report step on the session. With every note scored the
   * report is stored and the session is complete; a note without a score ends in
   * `KeyError` with the report and the completion flag as they were.
   */
  method GenerateFinalReport(state: InterviewState, svc: Services) returns (outcome: Outcome)
    modifies state
    ensures old(state.Valid()) ==> outcome == Completed && state.isComplete && state.Valid()
    ensures ReportGenerator.AllScored(old(state.interviewNotes)) ==> outcome == Completed && state.isComplete
    ensures !ReportGenerator.AllScored(old(state.interviewNotes)) ==>
      && outcome == KeyError
      && state.interviewReport == old(state.interviewReport)
      && state.isComplete == old(state.isComplete)
    ensures outcome == Completed ==>
      var r := ReportGenerator.GenerateReport(old(state.resumeContent), old(state.jobDescription),
                 old(state.interviewNotes), svc.reportModel);
      r.Ok? && state.interviewReport == r.value
    ensures state.interviewNotes == old(state.interviewNotes)
    ensures state.conversationHistory == old(state.conversationHistory)
    ensures state.currentQuestionIdx == old(state.currentQuestionIdx)
    ensures state.interviewPlan == old(state.interviewPlan)
    ensures state.resumeContent == old(state.resumeContent) && state.jobDescription == old(state.jobDescription)
    ensures state.currentQuestion == old(state.currentQuestion)
    ensures state.candidateResponse == old(state.candidateResponse)
    ensures state.ragContext == old(state.ragContext) && state.currentAnalysis == old(state.currentAnalysis)
    ensures state.nextAction == old(state.nextAction)
  {
    ReportGenerator.NotesTextFailsIffUnscored(state.interviewNotes);
    outcome := state.GenerateReport(svc);
  }

  /**
   * A two-question session answered twice: two notes holding the two answers in order,
   * four turns, the index at the end of the plan and no further question.
   */
  method TwoQuestionSession(state: InterviewState, first: string, second: string, svc: Services)
    returns (q1: Option<string>, q2: Option<string>, q3: Option<string>)
    requires state.Valid() && state.currentQuestionIdx == 0 && |state.interviewPlan| == 2
    requires !state.isComplete && first != "" && second != ""
    requires Retrieves(svc, state.interviewPlan[0].question, first)
    requires Retrieves(svc, state.interviewPlan[1].question, second)
    modifies state
    ensures state.interviewPlan == old(state.interviewPlan)
    ensures q1 == Some(state.interviewPlan[0].question) && q2 == Some(state.interviewPlan[1].question)
    ensures q3 == None
    ensures |state.interviewNotes| == 2 && |state.conversationHistory| == 4
    ensures state.currentQuestionIdx == 2 && state.ShouldContinue() == CompleteRoute
    ensures state.interviewNotes[0].response == first && state.interviewNotes[1].response == second
    ensures state.interviewNotes[0].question == state.interviewPlan[0].question
    ensures state.interviewNotes[1].question == state.interviewPlan[1].question
    ensures state.Valid()
  {
    ghost var plan := state.interviewPlan;
    q1 := GetNextQuestion(state);
    assert state.currentQuestion == plan[0].question && !state.isComplete;
    var _ := ProcessCandidateAnswer(state, first, svc);
    assert state.currentQuestionIdx == 1 && state.interviewPlan == plan;
    assert state.interviewNotes[0].response == first && state.interviewNotes[0].question == plan[0].question;
    q2 := GetNextQuestion(state);
    ghost var firstNote := state.interviewNotes[0];
    var _ := ProcessCandidateAnswer(state, second, svc);
    assert state.interviewNotes[0] == firstNote;
    q3 := GetNextQuestion(state);
  }
}
