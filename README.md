# Interviewer AI — a verified model of the interview core

Interviewer AI runs a mock job interview. It reads a résumé and a job description, asks a
language model for a question plan, and asks the questions one at a time. It analyses and
scores each answer, keeps notes and a conversation history, and writes a final report. Sessions can be
stored in a database, and a few utilities format statistics for display.

This project models the deterministic logic under that glue, in Dafny:

- **Session.** `Workflow.InterviewState` is the session record, a class whose fields the
  workflow steps update in place (`src/core/workflow_manager.py`). `InterviewSystem` holds the
  interactive entry points that drive those steps (`src/core/interview_system.py`). The
  ghost predicate `InterviewState.Valid` is the answer-path invariant:
  - the index never passes the plan;
  - there is one note per answered question;
  - there are two turns per note, the question and then the answer;
  - every note has a score.

  Every step preserves it, with one condition: `CreateInterviewPlan` replaces the plan, so it
  keeps the invariant only when the index is still 0, as it is when a session starts.
- **Planning.** `Planner` covers fence stripping, validation, trimming to the requested count and
  the fixed fallback pool (`src/components/interview_planner.py`). `StrictPlanner` is the older
  planner at the repository root, which raises instead of falling back (`interview_planner.py`).
- **Analysis.** `ResponseAnalyzer` covers the six-turn history window, the empty-answer short cut,
  the `SCORE:` line scanner and note construction (`response_analyzer.py`).
- **Reporting.** `ReportGenerator` covers the notes text, input truncation, the failure text,
  the overall score and the summary statistics (`src/components/report_generator.py`).
  `Display` covers the score histogram, the category breakdown and the API-key check.
  `JsonValue` covers the JSON sanitiser (`utils.py`). `Tally` is a dictionary that keeps
  insertion order, with counts and totals per key; both utilities count with it.
- **Documents.** `DocumentProcessor` covers loader choice, source tagging and content extraction.
  It models `src/components/document_processor.py` and the identical copy
  `document_processor.py`.
- **Persistence.** `Persistence` covers error classification, the create and update payloads and
  the dashboard aggregation (`src/database/supabase.py`).
- **Python built-ins.** `PyStr` models the built-ins the code relies on: slices with their
  clamping, `strip`, `split`, `startswith`, `in`, `str(int)` and `int(str)`. `Records` holds
  the record shapes.

Everything outside the model is a parameter. The language model, the retriever, `json.loads`
and the document loaders become total functions. Their failures become values
(`LlmReply.Failed`, `Retrieval.RetrievalFailed`, `ParseOutcome.ParseError`,
`LoaderOutcome.FileMissing`), and the clock becomes string parameters.

Two places where the code does something other than what a reader might expect are
modelled as written:

- **Plan length.** The comment at `src/components/interview_planner.py:46` says the plan is
  limited to the configured number of questions. The test on the next line keeps a parsed
  list of up to n + 2 questions whole and trims only longer ones to n
  (`src/components/interview_planner.py:47-48`). `Planner.CreateInterviewPlan` states the
  bound 1..n + 2, and `Planner.PlanMayExceedCount` exhibits a five-question plan for n = 3.
- **When a session is complete.** `is_complete` is set in two places only: when a question
  is requested with the index past the end of the plan (`src/core/workflow_manager.py:77`),
  and when the report is generated (`src/core/workflow_manager.py:154`). Answering the last
  question does not set it. Whether the interview goes on is decided separately, by
  comparing the index with the plan length (`InterviewState.ShouldContinue`).

## Model

| member | source | states |
|---|---|---|
| Workflow.InterviewState.constructor | src/core/interview_system.py:104-117 | a new session holds the two texts and starts with index 0. Plan, notes and history are empty, every text field is empty and the session is not complete. It satisfies the answer-path invariant. |
| Workflow.InterviewState.ProcessDocuments | src/core/workflow_manager.py:47-60 | the next action becomes "plan" and every other field keeps its value: the resets only rewrite empty values, so non-empty notes and history survive. The step is idempotent and preserves the invariant. |
| Workflow.InterviewState.CreateInterviewPlan | src/core/workflow_manager.py:62-70 | the plan becomes the planner's plan for three questions and has 1 to 5 questions. The next action is "generate_question" and nothing else changes. The invariant is re-established when no question has been answered. |
| Workflow.InterviewState.GenerateNextQuestion | src/core/workflow_manager.py:72-85 | the index never moves. Past the plan, the session is marked complete with next action "complete". Otherwise the current question is the plan's question at the index. The invariant is preserved. |
| Workflow.InterviewState.ContextQuery | src/core/workflow_manager.py:91 | the retrieval query is the question, exactly one space, then the answer. |
| Workflow.InterviewState.RetrieveContext | src/core/workflow_manager.py:87-94 | only the retrieved context changes, and it is the retriever's answer to that query. A failing retriever gives RetrievalError and leaves the context as it was. |
| Workflow.InterviewState.AnalyzeResponse | src/core/workflow_manager.py:96-109 | without an answer the state is unchanged. Otherwise only the current analysis changes, to the analyzer's result for the exchange. |
| Workflow.InterviewState.TakeNotes | src/core/workflow_manager.py:111-137 | without an answer the state is unchanged. Past the plan it raises IndexError with nothing written. Otherwise the index grows by exactly one, and exactly one note and two turns are appended. The note holds the analysis score and the plan item's category, "general" if absent. The turns are interviewer then candidate. The invariant is preserved. |
| Workflow.InterviewState.ShouldContinue | src/core/workflow_manager.py:139-143 | "complete" exactly when the index has reached the plan's end, "continue" exactly when it has not |
| Workflow.InterviewState.GenerateReport | src/core/workflow_manager.py:145-156 | the report is the generator's report on the notes and the session is marked complete. A note without a score raises KeyError and changes nothing; a session meeting the invariant never raises. Plan, notes, history and index are unchanged. |
| InterviewSystem.StartInteractiveInterview | src/core/interview_system.py:96-123 | a load failure of either document is returned, the résumé's first. Otherwise the texts are each source's pages joined with newlines, and the result is a fresh session meeting the invariant. That session has index 0, no notes or history, is not complete, and has a non-empty planner plan. |
| InterviewSystem.GetNextQuestion | src/core/interview_system.py:125-131 | past the plan the result is None and the state is unchanged. Otherwise the current question becomes the plan's question at the index, and that question is the result unless the session was already complete, when it is None. Nothing else in the session changes, and the invariant is preserved. |
| InterviewSystem.ProcessCandidateAnswer | src/core/interview_system.py:133-142 | the answer is stored first. If the retriever fails, the outcome is RetrievalError and nothing else is written: context, analysis, index, notes and history are unchanged. Otherwise the context is the retriever's answer. An empty answer records nothing and keeps the analysis. A non-empty answer is analysed against the history before it. Within the plan it advances the index by one and adds its note and two turns. Past the plan the outcome is IndexError and the index, notes and history are unchanged. The plan, question, documents, report, next action and completion flag never change, and the invariant is preserved. |
| InterviewSystem.GenerateFinalReport | src/core/interview_system.py:144-146 | with every note scored, which includes no notes at all, the report is produced and the session is complete whatever the index. A note without a score gives KeyError with the report and the completion flag unchanged. The plan, notes, history, index, documents, question, answer, context, analysis and next action never change. |
| InterviewSystem.TwoQuestionSession | src/core/interview_system.py:125-142 | asking and answering twice on a two-question plan gives the two questions in order, then None. It leaves 2 notes holding the two answers, 4 turns, index 2 and the route "complete". Both retrievals are taken to succeed. |
| Planner.CleanJsonResponse | src/components/interview_planner.py:61-68 | input that does not start with a fence comes back stripped. A ```` ```json ```` fence loses 7 leading and 3 trailing characters and a plain ```` ``` ```` fence 3 and 3, and an input too short for the cut gives "". The older planner in interview_planner.py:40-47 cleans the same way. |
| Planner.CleanJsonFenceRoundTrip | src/components/interview_planner.py:63-65 | a body wrapped in a ```` ```json ```` fence is recovered exactly |
| Planner.FallbackQuestions | src/components/interview_planner.py:70-113 | the fallback plan is the first min(n, 5) questions of the fixed pool. For n ≥ 1 it is non-empty and has at most n questions. |
| Planner.FallbackPoolShape | src/components/interview_planner.py:74-110 | the pool has five questions with non-increasing priority. Their categories are exactly experience, technical, problem_solving and behavioral. |
| Planner.FallbackDefaultCategories | src/components/interview_planner.py:74-113 | the default fallback plan has three questions in three distinct categories |
| Planner.CreateInterviewPlan | src/components/interview_planner.py:18-59 | for a positive count the plan is never empty and has at most count + 2 questions |
| Planner.PlanKeptWhole | src/components/interview_planner.py:43-52 | a parsed list of 1 to n + 2 questions is the plan, unchanged and in order |
| Planner.PlanTrimmed | src/components/interview_planner.py:47-48 | a parsed list longer than n + 2 is cut to its first n questions |
| Planner.PlanFallsBack | src/components/interview_planner.py:43-59 | a model failure, a parse error, a non-list and an empty list each give the fallback plan |
| Planner.PlanMayExceedCount | src/components/interview_planner.py:47 | with the default count a five-question reply is kept whole, so the plan can exceed the count |
| Planner.NextQuestion | src/components/interview_planner.py:115-119 | None exactly when the index is past the plan, otherwise the question at the index. The older planner in interview_planner.py:49-53 looks up the same way. |
| StrictPlanner.CreateInterviewPlan | interview_planner.py:17-38 | the call succeeds exactly when the model replies and the cleaned reply parses to a non-empty list. That list is the plan, untrimmed; every other case raises. |
| StrictPlanner.StrictPlanHasFirstQuestion | interview_planner.py:34-53 | a plan the older planner returns always has a first question, and its lookup ends at the plan's length |
| ResponseAnalyzer.RecentTurns | response_analyzer.py:44 | the last min(6, n) turns of the history, in their original order |
| ResponseAnalyzer.FormatConversationHistory | response_analyzer.py:40-45 | the six-turn window rendered as `role: content` lines joined by newlines, empty for no turns. Its first and last lines are given by `HistoryTextEnds`, and its independence from older turns by `HistoryIgnoresOlderTurns`. |
| ResponseAnalyzer.HistoryTextEnds | response_analyzer.py:40-45 | no turns give the empty text. Otherwise the text opens with the `role: content` line of the oldest turn in the six-turn window and closes with the line of the newest turn. |
| ResponseAnalyzer.HistoryIgnoresOlderTurns | response_analyzer.py:40-45 | turns older than the last six never change the history text given to the model |
| ResponseAnalyzer.AnalyzeResponse | response_analyzer.py:17-38 | an empty answer gives "No response provided". A failed model call gives text starting "Analysis failed: ". |
| ResponseAnalyzer.EmptyResponseSkipsModel | response_analyzer.py:22-23 | the empty-answer result is the same whatever the model does |
| ResponseAnalyzer.FieldScoreIsFirstWord | response_analyzer.py:53 | the score read from the text after the colon is `int` of the first whitespace-separated word of its stripped form, or 5 when there is none |
| ResponseAnalyzer.ExtractScore | response_analyzer.py:47-57 | the scanning loop, stopping at the first `SCORE:` line, computes the score of the analysis text as specified line by line |
| ResponseAnalyzer.NoScoreLineGivesDefault | response_analyzer.py:49-57 | without a line starting with `SCORE:` the score is 5 |
| ResponseAnalyzer.FirstScoreLineDecides | response_analyzer.py:50-56 | the first `SCORE:` line alone decides the score, and later lines are ignored |
| ResponseAnalyzer.LineScoreOfInteger | response_analyzer.py:53 | a line `SCORE: n` reads as n for every integer n of at most 4300 digits |
| ResponseAnalyzer.ScoreIsTheIntegerWritten | response_analyzer.py:51-53 | a first line `SCORE: n`, n of at most 4300 digits, gives n with no clamping to 1..10, whatever follows |
| ResponseAnalyzer.ScoreOfNonIntegerWord | response_analyzer.py:52-55 | a first `SCORE:` line whose word is not an integer gives 5 without raising, whatever follows |
| ResponseAnalyzer.ScoreOfOverlongInteger | response_analyzer.py:50-57 | a first line `SCORE: n` with n of more than 4300 digits makes `int` raise, and the score is 5 |
| ResponseAnalyzer.ScoreOfEmptyScoreLine | response_analyzer.py:52-56 | a first `SCORE:` line with nothing after the colon gives 5, even before a later numbered line |
| ResponseAnalyzer.FractionAndBracketAreNotIntegers | response_analyzer.py:53-55 | `8/10` and `[8]` are not integer literals, so such scores fall back to 5 |
| ResponseAnalyzer.CreateInterviewNote | response_analyzer.py:59-71 | the note's score is the score read from the analysis. Question, answer, analysis and category are copied verbatim. |
| ReportGenerator.FormatInterviewNotes | src/components/report_generator.py:37-46 | the accumulating loop produces the notes text: one block per note, numbered from 1 in order, and "" for no notes. A note lacking a score raises. |
| ReportGenerator.NotesTextSnoc | src/components/report_generator.py:40-45 | one more note adds exactly its own block, numbered one past the notes before it |
| ReportGenerator.NotesTextStaysFailed | src/components/report_generator.py:43 | once a note lacks a score, more notes cannot make the formatting succeed |
| ReportGenerator.NotesTextFailsIffUnscored | src/components/report_generator.py:43 | the formatting fails exactly when some note has no score |
| ReportGenerator.NotesTextExtendsOne | src/components/report_generator.py:39-45 | the text of the notes before the last one starts the full text |
| ReportGenerator.NotesTextExtends | src/components/report_generator.py:39-45 | the text of any prefix of the notes starts the text of all of them |
| ReportGenerator.GenerateReport | src/components/report_generator.py:16-35 | a KeyError is raised exactly when the notes cannot be formatted. The model is asked with the first 2048 characters of the résumé and the first 1024 of the job description, and a failed call gives text starting "Report generation failed: ". |
| ReportGenerator.ReportIgnoresTails | src/components/report_generator.py:25-26 | text past those two limits never changes the report |
| ReportGenerator.Scores | src/components/report_generator.py:53 | one score per note, 5 for a note without one |
| ReportGenerator.Max | src/components/report_generator.py:67 | the highest score is a score of some note and no note scores higher |
| ReportGenerator.Min | src/components/report_generator.py:68 | the lowest score is a score of some note and no note scores lower |
| ReportGenerator.MeanBetween | src/components/report_generator.py:66-68 | the exact mean lies between the lowest and the highest score |
| ReportGenerator.OverallScore | src/components/report_generator.py:48-54 | 0 for no notes, otherwise the exact mean of the scores with missing ones counted as 5 |
| ReportGenerator.OverallScoreInRange | src/components/report_generator.py:48-54 | scores in 0..10 give an overall score in 0..10 |
| ReportGenerator.GetSummaryStats | src/components/report_generator.py:56-70 | nothing for no notes, not zeros. Otherwise the total is the note count and lowest ≤ average ≤ highest, with both extremes attained by some note. The categories are exactly the notes' categories, "general" when absent. |
| Tally.FindKey | utils.py:61 | a key lookup in the dictionary finds the row holding the key, or reports that no row holds it |
| Tally.TallyOfSnoc | utils.py:60-61 | counting one more item bumps its key's row, or appends a new row for a new key |
| Tally.BumpTallies | utils.py:78-84 | counting one more item keeps the dictionary a correct tally: distinct keys, correct counts and totals, and keys in first-occurrence order |
| Tally.TallyOfTallies | utils.py:77-84 | for every item sequence the counting dictionary has each key once. Each row's count and total are the key's number of items and their sum. Keys appear in first-occurrence order and the counts add up to the number of items. |
| Tally.InsertDescSorted | utils.py:64 | inserting a new key into a strictly descending row list keeps it strictly descending |
| Tally.SortDescRows | utils.py:64 | sorting keeps exactly the same rows |
| Tally.SortDescSorted | utils.py:64 | rows with distinct keys come out in strictly descending key order |
| Display.ScoreItems | utils.py:57 | one entry per note, its score or 0 when missing |
| Display.CountScores | utils.py:58-61 | the counting loop computes the tally of the notes' scores |
| Display.DistributionBodyStep | utils.py:63-67 | each further histogram row adds exactly its own line after the header and earlier lines |
| Display.FormatScoreDistribution | utils.py:52-69 | no notes give "No scores available". Otherwise the header is followed by one line per distinct score, highest first: the score, a bar of exactly `count` block characters and the count. |
| Display.DistributionFacts | utils.py:57-67 | the histogram rows are strictly descending and each row's count is the number of notes with that score. The counts add up to the number of notes, and every note's score has a row. |
| Display.CategoryItems | utils.py:79 | one entry per note: its category, "general" when missing, with its score, 0 when missing |
| Display.FormatCategoryBreakdown | utils.py:72-91 | no notes give no categories (the "No categories available" case), otherwise the category tally of the notes |
| Display.AverageScore | utils.py:88 | a category's average times its count is its total score |
| Display.BreakdownFacts | utils.py:77-90 | the breakdown has each category once, with its count and total, in first-occurrence order. The counts add up to the number of notes, and every note's category appears. |
| Display.ValidateOpenAiKey | utils.py:161-174 | a key is accepted exactly when it is non-empty, starts with "sk-" and has at least 40 characters |
| JsonValue.Sanitize | utils.py:40-49 | strings, integers, floats, booleans and None are unchanged and any other object becomes its string. Lists keep their length and dictionaries their keys in order. |
| JsonValue.SanitizeSerializable | utils.py:40-49 | the result is always JSON-serialisable |
| JsonValue.SanitizeKeepsSerializable | utils.py:40-49 | an already serialisable value comes back unchanged |
| JsonValue.SanitizeIdempotent | utils.py:40-49 | sanitising twice is the same as sanitising once |
| DocumentProcessor.ResumeLoad | src/components/document_processor.py:22-31 | the PDF loader reads the résumé exactly when its path ends with ".pdf", case-sensitively; otherwise the text loader does |
| DocumentProcessor.Tagged | src/components/document_processor.py:38-42 | every page keeps its content and is tagged with its source, and no page is added or lost |
| DocumentProcessor.LoadDocuments | src/components/document_processor.py:16-47 | a failed résumé load, then a failed job load, is returned as a not-found or generic loading error. Otherwise the result is all résumé pages tagged "resume", followed by all job pages tagged "job_description". The copy at document_processor.py:16-47 is the same. |
| DocumentProcessor.ContentsTaggedAppend | src/components/document_processor.py:55-56 | filtering by tag distributes over concatenation, keeping order |
| DocumentProcessor.ContentsTaggedOf | src/components/document_processor.py:55-56 | filtering finds every page of the tag asked for and none of another tag |
| DocumentProcessor.ExtractContent | src/components/document_processor.py:53-61 | a source with no page among the documents gets the empty text |
| DocumentProcessor.ExtractIgnoresUntagged | src/components/document_processor.py:53-61 | pages tagged with neither source never change either extracted text |
| DocumentProcessor.ExtractOfLoaded | src/components/document_processor.py:39-60 | extracting the content of what was loaded gives each source's pages joined with newlines, in order. The copy at document_processor.py:39-60 is the same. |
| Persistence.HandleError | src/database/supabase.py:31-44 | never a success. "PGRST204" takes precedence over "JWT", which is matched case-sensitively and takes precedence over "duplicate key", matched in the lower-cased message (the Kelvin sign lower-cases to `k`). Otherwise the text is "Database error: " and the message. |
| Persistence.SchemaCodeTakesPrecedence | src/database/supabase.py:37-38 | any message containing "PGRST204" is a schema mismatch, whatever else it contains |
| Persistence.LowerCaseJwtIsGeneric | src/database/supabase.py:39-44 | the message "jwt" is not recognised as an authentication failure, because the marker is matched case-sensitively, and falls through to the generic database error |
| Persistence.DuplicateMatchIgnoresCase | src/database/supabase.py:41-42 | two messages that lower-case alike (ASCII letters, and the Kelvin sign as `k`) are classified alike as duplicates |
| Persistence.KelvinSignKeyIsDuplicate | src/database/supabase.py:41-42 | "duplicate \u212Aey", with the Kelvin sign in place of `k`, is classified as a duplicate, because `lower()` maps that sign to `k` |
| Persistence.Get | src/database/supabase.py:175-185 | a present key gives its value and a missing key the default |
| Persistence.CreatePayload | src/database/supabase.py:169-187 | the insert always carries the caller's user id and the creation time. The average score is the supplied one or None. |
| Persistence.CreatePayloadDefaults | src/database/supabase.py:173-187 | from empty data every column has its documented default: status "in_progress", index 0, empty plan, notes and history, 0 questions and an empty report |
| Persistence.CreatePayloadColumns | src/database/supabase.py:169-187 | for any session data, each of the eleven columns from title to final report holds the supplied value when its key is present and its default when it is missing, so partly supplied data still gets defaults for the rest. The user id and the creation time always come from the call. |
| Persistence.UpdatePayload | src/database/supabase.py:205-230 | the update's keys are exactly "updated_at" plus the whitelisted keys present in the data, each copied unchanged; absent keys stay absent |
| Persistence.CountStatus | src/database/supabase.py:353 | a status count never exceeds the number of sessions |
| Persistence.StatusCountsBounded | src/database/supabase.py:353-371 | completed plus in-progress sessions never exceed all sessions |
| Persistence.DashboardOf | src/database/supabase.py:340-387 | a failed query gives all zeros. Otherwise the total is the session count and the listed sessions are the first ten. Without a completed session the average and the questions answered are both 0. |
| Persistence.DashboardConsistent | src/database/supabase.py:352-375 | the dashboard's counts are consistent and its session list is the prefix of length min(10, n) |
| PyStr.Slice | src/components/interview_planner.py:65-67 | Python slicing with clamped bounds: in-range bounds give the ordinary subsequence and the result is never longer than the input |
| PyStr.FirstWordOfStrip | response_analyzer.py:53 | the first word of the stripped text is the leading token of the left-stripped text |
| PyStr.ParseIntOfString | response_analyzer.py:53 | `int` reads back every integer written in decimal with at most 4300 digits |
| PyStr.ParseIntOverCap | response_analyzer.py:53 | an integer written with more than 4300 digits is rejected by `int` |

## Left out

- Printing, logging and files: the session and report writers, loaders, cleaners, the summary
  printer and path validation in `utils.py`.
- The clock. Note timestamps, `created_at`/`updated_at`, the default session title and the
  dashboard's 30-day `recent_activity` are not modelled; the strings that depend on the clock are parameters.
- Language model, retriever, `json.loads` and document loaders: these are function parameters.
  The exception text `str(e)` of a failure is an abstract string.
- Building or loading the FAISS index and splitting documents. `setup_rag_system` is modelled
  only through the document loading and extraction that both of its branches perform.
- The LangGraph graph, `execute_workflow` and `conduct_full_interview`: library-driven
  orchestration of the same steps.
- The Streamlit application, the console loop, configuration, prompts and the Supabase client.
  Client calls, authentication, retries and the minimal-insert fallbacks go through the network.
- Rounding and display formatting: `round(…, 1)`, `:.1f` and `str.title()`. Averages are exact reals.
- Display.FormatCategoryBreakdown: returns the per-category rows (count, total) in their
  printed order rather than the formatted lines, because those only add float formatting
  and `title()`.
- PyStr.ParseInt: accepts an optional sign and ASCII digits only, without `_` separators or
  other Unicode digits, because the scores the analysis produces are plain ASCII numerals.
  It rejects more than 4300 digits, which is the default `int()` cap of CPython 3.11 and
  later. Earlier versions have no cap, and there a longer integer is read back too.
- Persistence.HandleError: lower-cases only the ASCII letters and the Kelvin sign, and keeps
  every other character. An ASCII marker only sees characters that lower-case to ASCII
  letters. The only other one is U+0130, which lower-cases to `i` plus a combining dot, and
  in "duplicate key" the `i` is followed by `c`, so it cannot take part in a match. These two
  facts about `str.lower()` are assumed here rather than proved.
- Persistence.DuplicateMatchIgnoresCase: "lower-case alike" means alike under the character
  mapping of `PyStr.Lower`, which the line above describes.
- Planner.NextQuestion: the index is a natural number. Python's negative indexing, which
  counts from the end of the plan, is not modelled, because no caller passes a negative index.
- Records.Question: a plan item always has a `question` field. The KeyError a JSON item
  without one would raise in the workflow is not modelled, because the item is typed data
  after parsing.
- Plan categories, note scores and note categories are optional fields; an explicit JSON
  `null` is treated like a missing key.
- Display.ScoreItems: scores are integers, so a non-integer score in a note such as a float or a
  string is not modelled.
- JsonValue.PyValue: dictionary keys are strings, and an arbitrary object is represented by
  the text `str()` gives for it.
- DocumentProcessor.Tagged: the loader's page objects are tagged in place in Python and
  here become new values, so aliasing between the pages and the loader is not modelled.
- Workflow.InterviewState.TakeNotes, GenerateReport and RetrieveContext: the IndexError and
  KeyError they raise in Python are returned as an `Outcome` the caller sees instead of
  propagating. So is any exception from the retriever's embedding call, which is `RetrievalError`.
- InterviewSystem.GetNextQuestion: returns None past the plan and also when the session
  was already marked complete, as the code at `src/core/interview_system.py:131` does, so
  "None exactly past the plan" holds only for sessions not yet complete.
