/**
 * The response analyzer: the prompt's conversation window, the empty-answer
 * short cut, the `SCORE:` line scanner and the construction of a note.
 */
module ResponseAnalyzer {
  import opened Wrappers
  import opened Records
  import PyStr

  const NoResponseText := "No response provided"
  const AnalysisFailedPrefix := "Analysis failed: "
  const ScorePrefix := "SCORE:"
  /** The neutral score used whenever no score can be read. */
  const DefaultScore := 5
  /** How many of the latest turns the analysis prompt sees. */
  const HistoryWindow := 6

  /** The variables of the analysis prompt. */
  datatype AnalysisPrompt = AnalysisPrompt(
    question: string, response: string, ragContext: string, conversationHistory: string)

  // --------------------------------------------------------- conversation text

  function TurnLine(t: Turn): string {
    t.role + ": " + t.content
  }

  function TurnLines(ts: seq<Turn>): (r: seq<string>)
    ensures |r| == |ts| && forall i :: 0 <= i < |ts| ==> r[i] == TurnLine(ts[i])
  {
    seq(|ts|, i requires 0 <= i < |ts| => TurnLine(ts[i]))
  }

  /** `history[-6:]`: the last `min(6, |history|)` turns, in their original order. */
  function RecentTurns(history: seq<Turn>): (r: seq<Turn>)
    ensures |r| == if |history| < HistoryWindow then |history| else HistoryWindow
    ensures r == history[|history| - |r|..]
  {
    PyStr.SliceLast(history, HistoryWindow);
    PyStr.Slice(history, -HistoryWindow, |history|)
  }

  /** The recent turns as `role: content` lines joined by newlines; no turns, no text. */
  function FormatConversationHistory(history: seq<Turn>): (r: string)
    ensures history == [] ==> r == ""
  {
    PyStr.Join("\n", TurnLines(RecentTurns(history)))
  }

  /** The history text is empty for no turns; otherwise it opens with the oldest turn in
      the window and closes with the newest. */
  lemma HistoryTextEnds(history: seq<Turn>)
    ensures history == [] ==> FormatConversationHistory(history) == ""
    ensures history != [] ==>
      var r := FormatConversationHistory(history);
      && PyStr.StartsWith(r, TurnLine(history[|history| - |RecentTurns(history)|]))
      && PyStr.EndsWith(r, TurnLine(history[|history| - 1]))
  {
    var recent := RecentTurns(history);
    var lines := TurnLines(recent);
    PyStr.JoinEnds("\n", lines);
    if history != [] {
      var k := |history| - |recent|;
      assert |recent| > 0 && |lines| == |recent|;
      assert recent[0] == history[k] && recent[|recent| - 1] == history[|history| - 1];
      assert lines[0] == TurnLine(history[k]);
      assert lines[|lines| - 1] == TurnLine(history[|history| - 1]);
    }
  }

  /** Turns older than the window never reach the prompt. */
  lemma HistoryIgnoresOlderTurns(older: seq<Turn>, history: seq<Turn>)
    requires |history| >= HistoryWindow
    ensures FormatConversationHistory(older + history) == FormatConversationHistory(history)
  {
    var all := older + history;
    assert all[|all| - HistoryWindow..] == history[|history| - HistoryWindow..];
  }

  // ------------------------------------------------------------------ analysis

  /**
   * An empty answer gives the fixed sentinel without consulting the model; otherwise
   * the model's reply, or "Analysis failed: " and the error when the call raises.
   */
  function AnalyzeResponse(question: string, response: string, ragContext: string,
                           history: seq<Turn>, llm: AnalysisPrompt -> LlmReply): (r: string)
    ensures response == "" ==> r == NoResponseText
    ensures response != "" && llm(AnalysisPrompt(question, response, ragContext,
                                   FormatConversationHistory(history))).Failed?
            ==> PyStr.StartsWith(r, AnalysisFailedPrefix)
  {
    if response == "" then NoResponseText
    else
      match llm(AnalysisPrompt(question, response, ragContext, FormatConversationHistory(history)))
      case Reply(text) => text
      case Failed(message) => AnalysisFailedPrefix + message
  }

  /** The empty-answer result does not depend on the model at all. */
  lemma EmptyResponseSkipsModel(question: string, ragContext: string, history: seq<Turn>,
                                llm1: AnalysisPrompt -> LlmReply, llm2: AnalysisPrompt -> LlmReply)
    ensures AnalyzeResponse(question, "", ragContext, history, llm1)
         == AnalyzeResponse(question, "", ragContext, history, llm2)
  {
  }

  // ------------------------------------------------------------------- scoring

  /**
   * The `try` block on a `SCORE:` line: `int(line.split(':')[1].strip().split()[0])`,
   * where every exception the bare `except` catches (no second piece, no word, not
   * an integer) gives 5.
   */
  function LineScore(line: string): int {
    var pieces := PyStr.SplitOn(line, ':');
    if |pieces| < 2 then DefaultScore else FieldScore(pieces[1])
  }

  /** The first whitespace-separated word of the text after the colon, as an integer. */
  function FieldScore(field: string): int {
    var t := PyStr.LStrip(field);
    if t == [] then DefaultScore else PyStr.ParseInt(PyStr.Token(t)).GetOr(DefaultScore)
  }

  /** `FieldScore` reads the same word as Python's `field.strip().split()[0]`. */
  lemma FieldScoreIsFirstWord(field: string)
    ensures var words := PyStr.Words(PyStr.Strip(field));
      FieldScore(field) == if words == [] then DefaultScore
                           else PyStr.ParseInt(words[0]).GetOr(DefaultScore)
  {
    PyStr.FirstWordOfStrip(field);
  }

  /** The score decided by the first line that starts with `SCORE:`, or 5. */
  function ScoreFromLines(lines: seq<string>): int
    decreases |lines|
  {
    if |lines| == 0 then DefaultScore
    else if PyStr.StartsWith(lines[0], ScorePrefix) then LineScore(lines[0])
    else ScoreFromLines(lines[1..])
  }

  /** The score of an analysis text, its lines split on '\n'. */
  function ScoreOf(analysis: string): int {
    ScoreFromLines(PyStr.SplitOn(analysis, '\n'))
  }

  /** The line scanner: stops at the first `SCORE:` line, never fails. */
  method ExtractScore(analysis: string) returns (score: int)
    ensures score == ScoreOf(analysis)
  {
    score := DefaultScore;
    var lines := PyStr.SplitOn(analysis, '\n');
    var i := 0;
    while i < |lines|
      invariant 0 <= i <= |lines|
      invariant score == DefaultScore
      invariant ScoreFromLines(lines[i..]) == ScoreOf(analysis)
    {
      if PyStr.StartsWith(lines[i], ScorePrefix) {
        score := LineScore(lines[i]);
        break;
      }
      assert lines[i..][1..] == lines[i + 1..];
      i := i + 1;
    }
  }

  lemma {:induction false} ScoreFromLinesNoScoreLine(lines: seq<string>)
    requires forall j :: 0 <= j < |lines| ==> !PyStr.StartsWith(lines[j], ScorePrefix)
    ensures ScoreFromLines(lines) == DefaultScore
    decreases |lines|
  {
    if |lines| > 0 {
      ScoreFromLinesNoScoreLine(lines[1..]);
    }
  }

  lemma {:induction false} ScoreFromLinesFirst(lines: seq<string>, k: nat)
    requires k < |lines| && PyStr.StartsWith(lines[k], ScorePrefix)
    requires forall j :: 0 <= j < k ==> !PyStr.StartsWith(lines[j], ScorePrefix)
    ensures ScoreFromLines(lines) == LineScore(lines[k])
    decreases k
  {
    if k > 0 {
      ScoreFromLinesFirst(lines[1..], k - 1);
    }
  }

  /** Without a line starting with `SCORE:` the score is 5. */
  lemma NoScoreLineGivesDefault(analysis: string)
    requires forall line :: line in PyStr.SplitOn(analysis, '\n') ==> !PyStr.StartsWith(line, ScorePrefix)
    ensures ScoreOf(analysis) == DefaultScore
  {
    ScoreFromLinesNoScoreLine(PyStr.SplitOn(analysis, '\n'));
  }

  /** Only the first `SCORE:` line counts; the lines after it, `SCORE:` or not, are ignored. */
  lemma FirstScoreLineDecides(analysis: string, k: nat)
    requires var lines := PyStr.SplitOn(analysis, '\n');
      && k < |lines| && PyStr.StartsWith(lines[k], ScorePrefix)
      && forall j :: 0 <= j < k ==> !PyStr.StartsWith(lines[j], ScorePrefix)
    ensures ScoreOf(analysis) == LineScore(PyStr.SplitOn(analysis, '\n')[k])
  {
    var lines := PyStr.SplitOn(analysis, '\n');
    ScoreFromLinesFirst(lines, k);
  }

  /** A first line `SCORE: <n>` reads as `n`. */
  lemma {:induction false} LineScoreOfInteger(n: int)
    requires PyStr.DigitCount(n) <= PyStr.MaxStrDigits
    ensures LineScore("SCORE: " + PyStr.IntToString(n)) == n
  {
    var num := PyStr.IntToString(n);
    var line := "SCORE: " + num;
    assert line[5] == ':' && ':' !in line[..5];
    PyStr.SplitOnFirst(line, ':', 5);
    assert line[6..] == " " + num;
    assert ':' !in " " + num;
    PyStr.SplitOnAbsent(" " + num, ':');
    PyStr.LStripOneSpace(num);
    PyStr.TokenWhole(num);
    PyStr.ParseIntOfString(n);
  }

  /** A well-formed first line gives its integer, any within the digit cap: no clamping to 1..10,
      and whatever follows on later lines. */
  lemma ScoreIsTheIntegerWritten(n: int, rest: string)
    requires PyStr.DigitCount(n) <= PyStr.MaxStrDigits
    ensures ScoreOf("SCORE: " + PyStr.IntToString(n) + "\n" + rest) == n
  {
    var num := PyStr.IntToString(n);
    var line := "SCORE: " + num;
    var text := line + "\n" + rest;
    assert "SCORE: " + num + "\n" + rest == text;
    assert '\n' !in line;
    assert text[..|line|] == line && text[|line|] == '\n';
    PyStr.SplitOnFirst(text, '\n', |line|);
    assert PyStr.StartsWith(line, ScorePrefix);
    LineScoreOfInteger(n);
  }

  /** A first `SCORE:` line whose first word is not an integer gives 5, whatever follows. */
  lemma ScoreOfNonIntegerWord(word: string, rest: string)
    requires word != [] && PyStr.NoSpace(word) && ':' !in word && '\n' !in word
    requires PyStr.ParseInt(word) == None
    ensures ScoreOf("SCORE: " + word + "\n" + rest) == DefaultScore
  {
    var line := "SCORE: " + word;
    var text := line + "\n" + rest;
    assert "SCORE: " + word + "\n" + rest == text;
    assert '\n' !in line;
    assert text[..|line|] == line && text[|line|] == '\n';
    PyStr.SplitOnFirst(text, '\n', |line|);
    assert PyStr.StartsWith(line, ScorePrefix);
    LineScoreOfNonIntegerWord(word);
  }

  /** An integer past `int()`'s digit cap raises `ValueError`, and the score falls back to 5. */
  lemma ScoreOfOverlongInteger(n: int, rest: string)
    requires PyStr.DigitCount(n) > PyStr.MaxStrDigits
    ensures ScoreOf("SCORE: " + PyStr.IntToString(n) + "\n" + rest) == DefaultScore
  {
    PyStr.ParseIntOverCap(n);
    ScoreOfNonIntegerWord(PyStr.IntToString(n), rest);
  }

  /** The line `SCORE: <word>` alone, for a word that is not an integer. */
  lemma LineScoreOfNonIntegerWord(word: string)
    requires word != [] && PyStr.NoSpace(word) && ':' !in word
    requires PyStr.ParseInt(word) == None
    ensures LineScore("SCORE: " + word) == DefaultScore
  {
    var line := "SCORE: " + word;
    assert line[5] == ':' && ':' !in line[..5];
    PyStr.SplitOnFirst(line, ':', 5);
    assert line[6..] == " " + word;
    assert ':' !in " " + word;
    PyStr.SplitOnAbsent(" " + word, ':');
    PyStr.LStripOneSpace(word);
    PyStr.TokenWhole(word);
  }

  /** A first `SCORE:` line with nothing after the colon gives 5, even when a later
      `SCORE:` line carries a number. */
  lemma ScoreOfEmptyScoreLine(rest: string)
    ensures ScoreOf("SCORE:\n" + rest) == DefaultScore
  {
    var line := "SCORE:";
    var text := line + "\n" + rest;
    assert "SCORE:\n" + rest == text;
    assert text[..6] == line && text[6] == '\n' && '\n' !in line;
    PyStr.SplitOnFirst(text, '\n', 6);
    assert line[5] == ':' && ':' !in line[..5];
    PyStr.SplitOnFirst(line, ':', 5);
    assert line[6..] == "";
  }

  /** Tokens such as `8/10` and `[8]` are not integers for `int()`. */
  lemma FractionAndBracketAreNotIntegers()
    ensures PyStr.ParseInt("8/10") == None && PyStr.ParseInt("[8]") == None
  {
    assert !PyStr.IsDigit("8/10"[1]);
    assert !PyStr.IsDigit("[8]"[0]);
  }

  // ---------------------------------------------------------------------- notes

  /** A note: the score read from the analysis, every other field copied verbatim. */
  function CreateInterviewNote(question: string, response: string, analysis: string,
                               category: string): (note: Note)
    ensures note.score == Some(ScoreOf(analysis))
    ensures note.question == question && note.response == response
    ensures note.analysis == analysis && note.category == Some(category)
  {
    Note(question, response, Some(ScoreOf(analysis)), analysis, Some(category))
  }
}
