/**
 * The display helpers of the utilities module: the score histogram, the per-category
 * breakdown and the API-key shape check.
 */
module Display {
  import opened Wrappers
  import opened Records
  import PyStr
  import opened Tally

  const NoScoresText := "No scores available"
  const DistributionHeader := "Score Distribution:\n"
  const NoCategoriesText := "No categories available"
  /** The display helpers read a missing score as 0 (the report generator reads 5). */
  const MissingScore := 0
  const BarChar := '\U{2588}'

  // ------------------------------------------------------------ distribution

  /** `[note.get('score', 0) for note in notes]`, as dict items; the histogram only
      counts, so every weight is 0. */
  function ScoreItems(notes: seq<Note>): (items: seq<(int, int)>)
    ensures |items| == |notes|
    ensures forall i :: 0 <= i < |notes| ==> items[i] == (notes[i].score.GetOr(MissingScore), 0)
  {
    seq(|notes|, i requires 0 <= i < |notes| => (notes[i].score.GetOr(MissingScore), 0))
  }

  /** The line for one score: the score, a bar of `count` block characters, the count. */
  function DistributionLine(r: Row<int>): string {
    PyStr.IntToString(r.key) + "/10: " + PyStr.Repeat(BarChar, r.count)
    + " (" + PyStr.IntToString(r.count) + ")\n"
  }

  /** The result string after the lines for `rows`: the header, then one line per row. */
  function DistributionBody(rows: seq<Row<int>>): string
    decreases |rows|
  {
    if |rows| == 0 then DistributionHeader else DistributionBody(rows[..|rows| - 1]) + DistributionLine(rows[|rows| - 1])
  }

  lemma DistributionBodyStep(rows: seq<Row<int>>, j: nat)
    requires j < |rows|
    ensures DistributionBody(rows[..j + 1]) == DistributionBody(rows[..j]) + DistributionLine(rows[j])
  {
    assert rows[..j + 1][..j] == rows[..j];
  }

  /** The histogram rows, highest score first. */
  function DistributionRows(notes: seq<Note>): seq<Row<int>> {
    SortDesc(TallyOf(ScoreItems(notes)))
  }

  function DistributionText(notes: seq<Note>): string {
    if |notes| == 0 then NoScoresText
    else DistributionBody(DistributionRows(notes))
  }

  /** The counting loop of `format_score_distribution`: `score_counts[score] += 1`. */
  method CountScores(notes: seq<Note>) returns (counts: seq<Row<int>>)
    ensures counts == TallyOf(ScoreItems(notes))
  {
    var items := ScoreItems(notes);
    counts := [];
    var i := 0;
    while i < |notes|
      invariant 0 <= i <= |notes|
      invariant counts == TallyOf(items[..i])
    {
      assert items[..i + 1] == items[..i] + [items[i]];
      TallyOfSnoc(items[..i], items[i]);
      counts := Bump(counts, notes[i].score.GetOr(MissingScore), 0);
      i := i + 1;
    }
    assert items[..i] == items;
  }

  /** `format_score_distribution`: count the scores, then one line per score, descending. */
  method FormatScoreDistribution(notes: seq<Note>) returns (text: string)
    ensures text == DistributionText(notes)
  {
    if |notes| == 0 {
      return NoScoresText;
    }
    var counts := CountScores(notes);
    var sorted := SortDesc(counts);
    text := DistributionHeader;
    var j := 0;
    while j < |sorted|
      invariant 0 <= j <= |sorted|
      invariant text == DistributionBody(sorted[..j])
    {
      DistributionBodyStep(sorted, j);
      text := text + DistributionLine(sorted[j]);
      j := j + 1;
    }
    assert sorted[..j] == sorted;
  }

  /** The histogram of non-empty notes: one row per distinct score, strictly descending,
      each row counting the notes with that score, the counts summing to the notes. */
  lemma DistributionFacts(notes: seq<Note>)
    ensures var rows := DistributionRows(notes);
      && StrictlyDescending(rows)
      && SumCounts(rows) == |notes|
      && (forall r :: r in rows ==> r.count == CountKey(ScoreItems(notes), r.key))
      && (forall i :: 0 <= i < |notes| ==>
            exists r :: r in rows && r.key == notes[i].score.GetOr(MissingScore))
  {
    var items := ScoreItems(notes);
    var counts := TallyOf(items);
    TallyOfTallies(items);
    SortDescSorted(counts);
    SortDescRows(counts);
    forall i | 0 <= i < |notes|
      ensures exists r :: r in DistributionRows(notes) && r.key == notes[i].score.GetOr(MissingScore)
    {
      var p := FindKey(counts, items[i].0).value;
      assert counts[p] in counts;
    }
    forall r | r in DistributionRows(notes) ensures r.count == CountKey(items, r.key) {
      var p :| 0 <= p < |counts| && counts[p] == r;
    }
  }

  // --------------------------------------------------------------- categories

  /** `note.get('question_category', 'general')` with `note.get('score', 0)` as the weight. */
  function CategoryItems(notes: seq<Note>): (items: seq<(string, int)>)
    ensures |items| == |notes|
    ensures forall i :: 0 <= i < |notes| ==>
      items[i] == (notes[i].category.GetOr(GeneralCategory), notes[i].score.GetOr(MissingScore))
  {
    seq(|notes|, i requires 0 <= i < |notes| =>
      (notes[i].category.GetOr(GeneralCategory), notes[i].score.GetOr(MissingScore)))
  }

  /** What the breakdown shows: the sentinel for no notes, else one row per category in
      the order the categories first appear. */
  datatype Breakdown = NoCategories | Categories(rows: seq<Row<string>>)

  /** `format_category_breakdown`, up to the text of each line. */
  method FormatCategoryBreakdown(notes: seq<Note>) returns (b: Breakdown)
    ensures b == if |notes| == 0 then NoCategories else Categories(TallyOf(CategoryItems(notes)))
  {
    if |notes| == 0 {
      return NoCategories;
    }
    var items := CategoryItems(notes);
    var categories: seq<Row<string>> := [];
    var i := 0;
    while i < |notes|
      invariant 0 <= i <= |notes|
      invariant categories == TallyOf(items[..i])
    {
      assert items[..i + 1] == items[..i] + [items[i]];
      TallyOfSnoc(items[..i], items[i]);
      categories := Bump(categories, notes[i].category.GetOr(GeneralCategory), notes[i].score.GetOr(MissingScore));
      i := i + 1;
    }
    assert items[..i] == items;
    return Categories(categories);
  }

  /** The average shown for a category: total score over count. */
  function AverageScore(r: Row<string>): (avg: real)
    ensures r.count > 0 ==> avg * (r.count as real) == r.total as real
  {
    if r.count > 0 then (r.total as real) / (r.count as real) else 0.0
  }

  /** The breakdown of non-empty notes: distinct categories in first-occurrence order, each
      with the number of its notes and their total score, the counts summing to the notes. */
  lemma BreakdownFacts(notes: seq<Note>)
    requires |notes| > 0
    ensures var items := CategoryItems(notes);
      var rows := TallyOf(items);
      && DistinctKeys(rows)
      && SumCounts(rows) == |notes|
      && (forall i :: 0 <= i < |rows| ==>
            rows[i].count == CountKey(items, rows[i].key) && rows[i].total == TotalKey(items, rows[i].key))
      && (forall j :: 0 <= j < |notes| ==> FindKey(rows, notes[j].category.GetOr(GeneralCategory)).Some?)
      && KeysOccur(items, rows)
      && (forall i, j :: 0 <= i < j < |rows| ==>
            FirstIndex(items, rows[i].key) < FirstIndex(items, rows[j].key))
  {
    var items := CategoryItems(notes);
    TallyOfTallies(items);
    assert forall j :: 0 <= j < |notes| ==> items[j].0 == notes[j].category.GetOr(GeneralCategory);
  }

  // ---------------------------------------------------------------- API key

  const KeyPrefix := "sk-"
  const MinKeyLength := 40

  /** `validate_openai_key`: non-empty, starting with "sk-", at least 40 characters. */
  function ValidateOpenAiKey(apiKey: string): (ok: bool)
    ensures ok <==> apiKey != "" && PyStr.StartsWith(apiKey, KeyPrefix) && |apiKey| >= MinKeyLength
  {
    if apiKey == "" then false
    else if !PyStr.StartsWith(apiKey, KeyPrefix) then false
    else if |apiKey| < MinKeyLength then false
    else true
  }
}
