/**
 * The records the interview code passes around as Python dictionaries: plan items,
 * interview notes, conversation turns, and what a language-model call gives back.
 */
module Records {
  import opened Wrappers

  /** One plan item. `category` is absent when the model left it out. */
  datatype Question = Question(
    question: string,
    category: Option<string>,
    priority: int,
    expectedSkills: seq<string>,
    followUpPrompts: seq<string>)

  /** One interview note. `score` and `category` may be absent in notes from outside the
      workflow (the report and display helpers read them with defaults). */
  datatype Note = Note(
    question: string,
    response: string,
    score: Option<int>,
    analysis: string,
    category: Option<string>)

  /** One conversation turn, `{'role': ..., 'content': ...}`. */
  datatype Turn = Turn(role: string, content: string)

  /** A language-model chain call: the reply text, or the message of the exception it raised. */
  datatype LlmReply = Reply(text: string) | Failed(message: string)

  const GeneralCategory := "general"
  const InterviewerRole := "interviewer"
  const CandidateRole := "candidate"

  /** `item.get('category', 'general')`. */
  function CategoryOf(q: Question): string {
    q.category.GetOr(GeneralCategory)
  }
}
