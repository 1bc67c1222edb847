/**
 * The report generator: the notes text handed to the model, the truncated report
 * prompt, and the overall score and summary statistics over a list of notes.
 */
module ReportGenerator {
  import opened Wrappers
  import opened Records
  import PyStr

  /** How much of the resume and of the job description the report prompt sees. */
  const ResumeLimit := 2048
  const JobLimit := 1024
  const ReportFailedPrefix := "Report generation failed: "
  /** The score read for a note without one, by the overall score and the statistics. */
  const MissingScoreDefault := 5
  const RuleWidth := 50

  /** The variables of the report prompt. */
  datatype ReportPrompt = ReportPrompt(resumeContent: string, jobDescription: string, interviewNotes: string)

  /** `note['score']` on a note without a score raises `KeyError`; it is raised before
      the `try`, so it escapes `generate_report`. */
  datatype ReportError = MissingScore

  // ---------------------------------------------------------------- notes text

  /** The text block for the note numbered `number` whose score is `score`. */
  function NoteBlock(number: int, note: Note, score: int): string {
    "\nQuestion " + PyStr.IntToString(number) + ": " + note.question + "\n"
    + "Response: " + note.response + "\n"
    + "Score: " + PyStr.IntToString(score) + "/10\n"
    + "Analysis: " + note.analysis + "\n"
    + PyStr.Repeat('-', RuleWidth) + "\n"
  }

  predicate AllScored(notes: seq<Note>) {
    forall i :: 0 <= i < |notes| ==> notes[i].score.Some?
  }

  /** The notes text: the blocks numbered from 1, one per note; nothing as soon as a
      note lacks a score. */
  function NotesText(notes: seq<Note>): Option<string>
    decreases |notes|
  {
    if |notes| == 0 then Some("")
    else
      var last := notes[|notes| - 1];
      match NotesText(notes[..|notes| - 1])
      case None => None
      case Some(text) =>
        if last.score.None? then None else Some(text + NoteBlock(|notes|, last, last.score.value))
  }

  /** One more note: its block is appended when it and all before it have a score. */
  lemma NotesTextSnoc(notes: seq<Note>, note: Note)
    ensures NotesText(notes + [note]) ==
      if NotesText(notes).Some? && note.score.Some?
      then Some(NotesText(notes).value + NoteBlock(|notes| + 1, note, note.score.value))
      else None
  {
    assert (notes + [note])[..|notes|] == notes;
  }

  /** The text of one more prefix note, in the prefix-index form the loop uses. */
  lemma NotesTextStep(notes: seq<Note>, i: nat)
    requires i < |notes|
    ensures NotesText(notes[..i + 1]) ==
      if NotesText(notes[..i]).Some? && notes[i].score.Some?
      then Some(NotesText(notes[..i]).value + NoteBlock(i + 1, notes[i], notes[i].score.value))
      else None
  {
    assert notes[..i + 1][..i] == notes[..i];
  }

  /** A failing prefix makes the whole text fail. */
  lemma NotesTextFailedPrefix(notes: seq<Note>, k: nat)
    requires k <= |notes| && NotesText(notes[..k]).None?
    ensures NotesText(notes).None?
  {
    NotesTextStaysFailed(notes[..k], notes[k..]);
    assert notes[..k] + notes[k..] == notes;
  }

  /** `_format_interview_notes`: the loop appending one block per note. */
  method FormatInterviewNotes(notes: seq<Note>) returns (r: Option<string>)
    ensures r == NotesText(notes)
  {
    var text := "";
    var i := 0;
    while i < |notes|
      invariant 0 <= i <= |notes|
      invariant NotesText(notes[..i]) == Some(text)
    {
      NotesTextStep(notes, i);
      if notes[i].score.None? {
        NotesTextFailedPrefix(notes, i + 1);
        return None;
      }
      text := text + NoteBlock(i + 1, notes[i], notes[i].score.value);
      i := i + 1;
    }
    assert notes[..i] == notes;
    return Some(text);
  }

  /** Once a note lacks a score, no later note brings the text back. */
  lemma {:induction false} NotesTextStaysFailed(notes: seq<Note>, more: seq<Note>)
    requires NotesText(notes).None?
    ensures NotesText(notes + more).None?
    decreases |more|
  {
    if |more| > 0 {
      var init, last := more[..|more| - 1], more[|more| - 1];
      NotesTextStaysFailed(notes, init);
      assert notes + more == (notes + init) + [last];
      NotesTextSnoc(notes + init, last);
    } else {
      assert notes + more == notes;
    }
  }

  /** The text exists exactly when every note has a score. */
  lemma {:induction false} NotesTextFailsIffUnscored(notes: seq<Note>)
    ensures NotesText(notes).None? <==> !AllScored(notes)
    decreases |notes|
  {
    if |notes| > 0 {
      var n := |notes|;
      var init, last := notes[..n - 1], notes[n - 1];
      NotesTextFailsIffUnscored(init);
      assert NotesText(notes).None? <==> NotesText(init).None? || last.score.None?;
      if AllScored(notes) {
        forall k | 0 <= k < |init|
          ensures init[k].score.Some?
        {
          assert init[k] == notes[k];
        }
      } else {
        var j :| 0 <= j < n && notes[j].score.None?;
        if j < n - 1 {
          assert init[j] == notes[j];
        }
      }
    }
  }

  /** One more note only adds text after the text of the notes before it. */
  lemma NotesTextExtendsOne(notes: seq<Note>, note: Note)
    requires NotesText(notes + [note]).Some?
    ensures NotesText(notes).Some?
    ensures PyStr.StartsWith(NotesText(notes + [note]).value, NotesText(notes).value)
  {
    NotesTextSnoc(notes, note);
    PyStr.StartsWithAppend(NotesText(notes).value, NotesText(notes).value,
                           NoteBlock(|notes| + 1, note, note.score.value));
  }

  /** The text of any first `k` notes is a prefix of the text of all of them: later
      notes only add text after it. */
  lemma {:induction false} NotesTextExtends(notes: seq<Note>, k: nat)
    requires k <= |notes| && NotesText(notes).Some?
    ensures NotesText(notes[..k]).Some?
    ensures PyStr.StartsWith(NotesText(notes).value, NotesText(notes[..k]).value)
    decreases |notes|
  {
    if k == |notes| {
      assert notes[..k] == notes;
    } else {
      var n := |notes|;
      var init, last := notes[..n - 1], notes[n - 1];
      NotesTextStep(notes, n - 1);
      assert notes[..n] == notes;
      var text := NotesText(init).value;
      PyStr.StartsWithAppend(text, text, NoteBlock(n, last, last.score.value));
      assert init[..k] == notes[..k];
      NotesTextExtends(init, k);
      PyStr.StartsWithTrans(NotesText(notes).value, NotesText(init).value, NotesText(notes[..k]).value);
    }
  }

  // -------------------------------------------------------------------- report

  /**
   * `generate_report`: the notes text (a missing score raises), then the model on the
   * first 2048 characters of the resume and the first 1024 of the job description; a
   * failing call gives "Report generation failed: " and the error.
   */
  function GenerateReport(resumeContent: string, jobDescription: string, notes: seq<Note>,
                          llm: ReportPrompt -> LlmReply): (r: Result<string, ReportError>)
    ensures r.Err? <==> NotesText(notes).None?
    ensures r.Ok? && llm(ReportPrompt(PyStr.Slice(resumeContent, 0, ResumeLimit),
                                      PyStr.Slice(jobDescription, 0, JobLimit),
                                      NotesText(notes).value)).Failed?
            ==> PyStr.StartsWith(r.value, ReportFailedPrefix)
  {
    match NotesText(notes)
    case None => Err(MissingScore)
    case Some(text) =>
      match llm(ReportPrompt(PyStr.Slice(resumeContent, 0, ResumeLimit), PyStr.Slice(jobDescription, 0, JobLimit), text))
      case Reply(report) => Ok(report)
      case Failed(message) => Ok(ReportFailedPrefix + message)
  }

  /** What follows the first 2048 characters of the resume and the first 1024 of the
      job description never influences the report. */
  lemma ReportIgnoresTails(resumeContent: string, resumeTail: string, jobDescription: string,
                           jobTail: string, notes: seq<Note>, llm: ReportPrompt -> LlmReply)
    requires |resumeContent| >= ResumeLimit && |jobDescription| >= JobLimit
    ensures GenerateReport(resumeContent + resumeTail, jobDescription + jobTail, notes, llm)
         == GenerateReport(resumeContent, jobDescription, notes, llm)
  {
    assert (resumeContent + resumeTail)[..ResumeLimit] == resumeContent[..ResumeLimit];
    assert (jobDescription + jobTail)[..JobLimit] == jobDescription[..JobLimit];
  }

  // ---------------------------------------------------------------- statistics

  /** `[note.get('score', 5) for note in notes]`. */
  function Scores(notes: seq<Note>): (s: seq<int>)
    ensures |s| == |notes| && forall i :: 0 <= i < |notes| ==> s[i] == notes[i].score.GetOr(MissingScoreDefault)
  {
    seq(|notes|, i requires 0 <= i < |notes| => notes[i].score.GetOr(MissingScoreDefault))
  }

  function Sum(s: seq<int>): int
    decreases |s|
  {
    if |s| == 0 then 0 else Sum(s[..|s| - 1]) + s[|s| - 1]
  }

  /** `max(s)`. */
  function Max(s: seq<int>): (m: int)
    requires |s| > 0
    ensures m in s && forall i :: 0 <= i < |s| ==> s[i] <= m
    decreases |s|
  {
    if |s| == 1 then s[0]
    else
      var m := Max(s[..|s| - 1]);
      assert forall x :: x in s[..|s| - 1] ==> x in s;
      if s[|s| - 1] > m then s[|s| - 1] else m
  }

  /** `min(s)`. */
  function Min(s: seq<int>): (m: int)
    requires |s| > 0
    ensures m in s && forall i :: 0 <= i < |s| ==> m <= s[i]
    decreases |s|
  {
    if |s| == 1 then s[0]
    else
      var m := Min(s[..|s| - 1]);
      assert forall x :: x in s[..|s| - 1] ==> x in s;
      if s[|s| - 1] < m then s[|s| - 1] else m
  }

  /** A sum lies between the length times any lower bound and the length times any upper bound. */
  lemma {:induction false} SumBetween(s: seq<int>, lo: int, hi: int)
    requires forall i :: 0 <= i < |s| ==> lo <= s[i] <= hi
    ensures |s| * lo <= Sum(s) <= |s| * hi
    decreases |s|
  {
    if |s| > 0 {
      SumBetween(s[..|s| - 1], lo, hi);
    }
  }

  function Mean(s: seq<int>): real
    requires |s| > 0
  {
    (Sum(s) as real) / (|s| as real)
  }

  /** Dividing by a positive count keeps bounds that hold for the count times each side. */
  lemma QuotientBetween(sum: int, n: int, lo: int, hi: int)
    requires n > 0 && n * lo <= sum <= n * hi
    ensures lo as real <= (sum as real) / (n as real) <= hi as real
  {
    assert (sum as real) / (n as real) == (lo as real) + ((sum - n * lo) as real) / (n as real);
    assert (sum as real) / (n as real) == (hi as real) - ((n * hi - sum) as real) / (n as real);
  }

  /** The mean of non-empty scores lies between their minimum and their maximum. */
  lemma MeanBetween(s: seq<int>)
    requires |s| > 0
    ensures Min(s) as real <= Mean(s) <= Max(s) as real
  {
    SumBetween(s, Min(s), Max(s));
    QuotientBetween(Sum(s), |s|, Min(s), Max(s));
  }

  /** `calculate_overall_score`: 0 without notes, else the mean score with 5 for a missing one. */
  function OverallScore(notes: seq<Note>): (r: real)
    ensures |notes| == 0 ==> r == 0.0
    ensures |notes| > 0 ==> r == Mean(Scores(notes))
  {
    if |notes| == 0 then 0.0 else Mean(Scores(notes))
  }

  /** Scores on the ten-point scale give an overall score on the same scale. */
  lemma OverallScoreInRange(notes: seq<Note>)
    requires forall i :: 0 <= i < |notes| ==> 0 <= notes[i].score.GetOr(MissingScoreDefault) <= 10
    ensures 0.0 <= OverallScore(notes) <= 10.0
  {
    if |notes| > 0 {
      var s := Scores(notes);
      SumBetween(s, 0, 10);
      QuotientBetween(Sum(s), |s|, 0, 10);
    }
  }

  datatype SummaryStats = SummaryStats(
    totalQuestions: nat, averageScore: real, highestScore: int, lowestScore: int,
    categoriesCovered: set<string>)

  /** `get_summary_stats`: nothing (the empty dict) without notes, else the totals. */
  function GetSummaryStats(notes: seq<Note>): (r: Option<SummaryStats>)
    ensures r.None? <==> |notes| == 0
    ensures r.Some? ==>
      && r.value.totalQuestions == |notes|
      && r.value.averageScore == OverallScore(notes)
      && r.value.lowestScore as real <= r.value.averageScore <= r.value.highestScore as real
      && (forall i :: 0 <= i < |notes| ==>
            r.value.lowestScore <= notes[i].score.GetOr(MissingScoreDefault) <= r.value.highestScore)
      && (exists i :: 0 <= i < |notes| && notes[i].score.GetOr(MissingScoreDefault) == r.value.highestScore)
      && (exists i :: 0 <= i < |notes| && notes[i].score.GetOr(MissingScoreDefault) == r.value.lowestScore)
      && (forall c :: c in r.value.categoriesCovered <==>
            exists i :: 0 <= i < |notes| && notes[i].category.GetOr(GeneralCategory) == c)
  {
    if |notes| == 0 then None
    else
      var s := Scores(notes);
      MeanBetween(s);
      var hi, lo := Max(s), Min(s);
      assert exists i :: 0 <= i < |s| && s[i] == hi;
      assert exists i :: 0 <= i < |s| && s[i] == lo;
      Some(SummaryStats(|notes|, Mean(s), hi, lo,
        set i | 0 <= i < |notes| :: notes[i].category.GetOr(GeneralCategory)))
  }
}
