/** The DeckCheck server: one cell holds the current analysis result, a
    submit replaces it, and the outputs (chart data, improvements table,
    three value-box texts) are computed from it. The analysis itself is
    the fixed mock result. */
module DeckCheck {
  import opened Wrappers
  import Sorting
  import Format
  import AnalysisSchema

  /** The `meta` dictionary: the six summary fields of an analysis. */
  datatype Meta = Meta(
    presentationTitle: Text,
    totalSlides: int,
    percentWithCode: real,
    percentWithImages: real,
    estimatedDurationMinutes: int,
    tone: Text)

  /** One row of the `evals` frame. */
  datatype EvalRow = EvalRow(
    category: Text,
    score: int,
    justification: Text,
    improvements: Text,
    scoreAfterImprovements: int)

  datatype AnalysisResult = AnalysisResult(meta: Meta, evals: seq<EvalRow>)

  /** What the upload input reports about one uploaded file. */
  datatype FileInfo = FileInfo(name: Text, size: nat, datapath: Text)

  /** The category names the mock result uses, in its row order. */
  const MockCategories: seq<Text> := [
    "clarity", "relevance", "visual_design", "engagement",
    "pacing", "structure", "consistency", "accessibility"]

  function Gain(e: EvalRow): int {
    e.scoreAfterImprovements - e.score
  }

  function CategoryColumn(evals: seq<EvalRow>): (cs: seq<Text>)
    ensures |cs| == |evals| && forall i :: 0 <= i < |evals| ==> cs[i] == evals[i].category
  {
    seq(|evals|, i requires 0 <= i < |evals| => evals[i].category)
  }

  /** A frame built from its columns, as a dictionary of equally long
      lists: row `i` takes entry `i` of every column. */
  function FrameFromColumns(categories: seq<Text>, scores: seq<int>, justifications: seq<Text>,
                            improvements: seq<Text>, scoresAfter: seq<int>): (rows: seq<EvalRow>)
    requires |scores| == |justifications| == |improvements| == |scoresAfter| == |categories|
    ensures |rows| == |categories|
    ensures forall i :: 0 <= i < |rows| ==>
              rows[i] == EvalRow(categories[i], scores[i], justifications[i], improvements[i], scoresAfter[i])
  {
    seq(|categories|, i requires 0 <= i < |categories| =>
      EvalRow(categories[i], scores[i], justifications[i], improvements[i], scoresAfter[i]))
  }

  const MockScores: seq<int> := [7, 8, 6, 5, 7, 8, 6, 7]
  const MockScoresAfter: seq<int> := [9, 9, 8, 7, 8, 9, 8, 8]

  const MockJustifications: seq<Text> := [
    "Clear explanations but some technical terms need definition",
    "Content matches audience well",
    "Good use of visuals but some slides are cluttered",
    "Could benefit from more interactive elements",
    "Well-paced overall with some dense sections",
    "Logical flow with clear beginning and end",
    "Mostly consistent formatting with minor variations",
    "Good font sizes but could improve color contrast"]

  const MockImprovements: seq<Text> := [
    "Define technical terms on slide 3 and 7",
    "Add more practical examples on slides 10-12",
    "Reduce text density on slides 5 and 15",
    "Add poll questions on slides 8 and 18",
    "Split content on slide 20 into two slides",
    "Add transition slides between sections",
    "Standardize bullet point formatting",
    "Increase contrast for text on slide backgrounds"]

  /** The result shown for every submission. */
  function MockAnalysis(): (r: AnalysisResult)
    ensures r.meta.totalSlides >= 0 && r.meta.estimatedDurationMinutes >= 0
    ensures AnalysisSchema.IsPercent(r.meta.percentWithCode)
    ensures AnalysisSchema.IsPercent(r.meta.percentWithImages)
    ensures |r.evals| == 8 && CategoryColumn(r.evals) == MockCategories
    ensures forall i :: 0 <= i < |r.evals| ==>
              AnalysisSchema.IsScore(r.evals[i].score)
              && AnalysisSchema.IsScore(r.evals[i].scoreAfterImprovements)
              && Gain(r.evals[i]) >= 0
  {
    var evals := FrameFromColumns(MockCategories, MockScores, MockJustifications,
                                  MockImprovements, MockScoresAfter);
    assert forall i :: 0 <= i < 8 ==>
             0 <= MockScores[i] <= MockScoresAfter[i] <= 10;
    AnalysisResult(
      Meta("Sample Presentation", 25, 40.0, 60.0, 15, "Technical and informative"),
      evals)
  }

  /** The mock spells the seventh category "consistency", where the schema
      declares "concistency"; the other seven names agree. */
  lemma MockCategoriesAgainstSchema()
    ensures |MockCategories| == |AnalysisSchema.CategoryFieldNames|
    ensures forall i :: 0 <= i < |MockCategories| ==>
              (MockCategories[i] == AnalysisSchema.CategoryFieldNames[i] <==> i != 6)
    ensures AnalysisSchema.CategoryFieldNames[6] == "concistency" && MockCategories[6] == "consistency"
  {
  }

  // ---------------------------------------------------------------- chart

  /** The data behind the score chart: the rows ordered by score, and the
      order of the category axis. */
  datatype ChartData = ChartData(rows: seq<EvalRow>, categoryLevels: seq<Text>)

  /** `scores`: no chart without a result; otherwise the evals ordered by
      score ascending, with the category axis fixed to that order. */
  function Scores(result: Option<AnalysisResult>): (chart: Option<ChartData>)
    ensures result.None? <==> chart.None?
    ensures result.Some? ==>
              var rows := chart.value.rows;
              multiset(rows) == multiset(result.value.evals)
              && (forall i, j :: 0 <= i < j < |rows| ==> rows[i].score <= rows[j].score)
              && chart.value.categoryLevels == CategoryColumn(rows)
  {
    match result
    case None => None
    case Some(r) =>
      var rows := Sorting.SortBy(r.evals, (e: EvalRow) => e.score);
      Some(ChartData(rows, CategoryColumn(rows)))
  }

  // ---------------------------------------------------------------- table

  /** One row of the improvements table, its fields in column order. */
  datatype ImprovementRow = ImprovementRow(
    category: Text,
    currentScore: int,
    improvements: Text,
    scoreAfterImprovements: int,
    gain: int)

  const ImprovementColumns: seq<Text> := [
    "Category", "Current score", "Improvements", "Score After Improvements", "Gain"]

  /** A frame with its column names; the empty frame has no columns. */
  datatype Table = Table(columns: seq<Text>, rows: seq<ImprovementRow>)

  function ToImprovementRow(e: EvalRow): ImprovementRow {
    ImprovementRow(e.category, e.score, e.improvements, e.scoreAfterImprovements, Gain(e))
  }

  function ImprovementRows(evals: seq<EvalRow>): (rows: seq<ImprovementRow>)
    ensures |rows| == |evals| && forall i :: 0 <= i < |evals| ==> rows[i] == ToImprovementRow(evals[i])
  {
    seq(|evals|, i requires 0 <= i < |evals| => ToImprovementRow(evals[i]))
  }

  /** `suggested_improvements`: the empty frame without a result;
      otherwise one row per eval with its gain, ordered by gain descending
      under the fixed five columns. */
  function SuggestedImprovements(result: Option<AnalysisResult>): (t: Table)
    ensures result.None? ==> t == Table([], [])
    ensures result.Some? ==>
              t.columns == ImprovementColumns
              && multiset(t.rows) == multiset(ImprovementRows(result.value.evals))
              && (forall i, j :: 0 <= i < j < |t.rows| ==> t.rows[i].gain >= t.rows[j].gain)
              && (forall i :: 0 <= i < |t.rows| ==>
                    t.rows[i].gain == t.rows[i].scoreAfterImprovements - t.rows[i].currentScore)
  {
    match result
    case None => Table([], [])
    case Some(r) =>
      var rows := Sorting.SortBy(ImprovementRows(r.evals), (row: ImprovementRow) => -row.gain);
      assert forall i :: 0 <= i < |rows| ==>
               rows[i].gain == rows[i].scoreAfterImprovements - rows[i].currentScore by {
        forall i | 0 <= i < |rows|
          ensures rows[i].gain == rows[i].scoreAfterImprovements - rows[i].currentScore
        {
          Sorting.PermutationMember(rows, ImprovementRows(r.evals), i);
        }
      }
      Table(ImprovementColumns, rows)
  }

  /** Each table row is the row of some eval, and each eval shows up in the table. */
  lemma {:induction false} TableMatchesEvals(r: AnalysisResult)
    ensures var rows := SuggestedImprovements(Some(r)).rows;
            |rows| == |r.evals|
            && (forall i :: 0 <= i < |rows| ==>
                  exists j :: 0 <= j < |r.evals| && rows[i] == ToImprovementRow(r.evals[j]))
            && (forall j :: 0 <= j < |r.evals| ==> ToImprovementRow(r.evals[j]) in rows)
  {
    var rows := SuggestedImprovements(Some(r)).rows;
    var all := ImprovementRows(r.evals);
    assert |rows| == |multiset(rows)| == |multiset(all)| == |all|;
    forall i | 0 <= i < |rows|
      ensures exists j :: 0 <= j < |r.evals| && rows[i] == ToImprovementRow(r.evals[j])
    {
      Sorting.PermutationMember(rows, all, i);
    }
    forall j | 0 <= j < |r.evals| ensures ToImprovementRow(r.evals[j]) in rows {
      assert all[j] in multiset(all);
    }
  }

  /** When every eval's scores lie in 0..10 and never drop, every gain in
      the table lies in 0..10. */
  lemma TableGainsBounded(r: AnalysisResult)
    requires forall j :: 0 <= j < |r.evals| ==>
               AnalysisSchema.IsScore(r.evals[j].score)
               && AnalysisSchema.IsScore(r.evals[j].scoreAfterImprovements)
               && Gain(r.evals[j]) >= 0
    ensures var rows := SuggestedImprovements(Some(r)).rows;
            forall i :: 0 <= i < |rows| ==> 0 <= rows[i].gain <= 10
  {
    var rows := SuggestedImprovements(Some(r)).rows;
    TableMatchesEvals(r);
    forall i | 0 <= i < |rows| ensures 0 <= rows[i].gain <= 10 {
      var j :| 0 <= j < |r.evals| && rows[i] == ToImprovementRow(r.evals[j]);
    }
  }

  /** In the table built from the mock, every gain lies between 0 and 10. */
  lemma MockTableGains()
    ensures var rows := SuggestedImprovements(Some(MockAnalysis())).rows;
            forall i :: 0 <= i < |rows| ==> 0 <= rows[i].gain <= 10
  {
    var m := MockAnalysis();
    TableGainsBounded(m);
  }

  // ---------------------------------------------------------------- texts

  /** `showtime`: "" without a result, otherwise "<minutes> minutes", whose
      number reads back as the estimated duration. */
  function Showtime(result: Option<AnalysisResult>): (t: Text)
    ensures t == "" <==> result.None?
    ensures result.Some? ==>
              |t| > 8 && t[|t| - 8..] == " minutes"
              && t[..|t| - 8] == Format.IntText(result.value.meta.estimatedDurationMinutes)
              && Format.ParseInt(t[..|t| - 8]) == Some(result.value.meta.estimatedDurationMinutes)
  {
    match result
    case None => ""
    case Some(r) =>
      var n := Format.IntText(r.meta.estimatedDurationMinutes);
      Format.IntTextRoundTrip(r.meta.estimatedDurationMinutes);
      var t := n + " minutes";
      assert t[..|t| - 8] == n;
      t
  }

  /** "" without a result, otherwise the number's text followed by " %".
      How Python writes a float is given as `floatText`. */
  function PercentText(result: Option<AnalysisResult>, percent: Meta -> real, floatText: real -> Text): (t: Text)
    ensures t == "" <==> result.None?
    ensures result.Some? ==>
              |t| >= 2 && t[|t| - 2..] == " %"
              && t[..|t| - 2] == floatText(percent(result.value.meta))
  {
    match result
    case None => ""
    case Some(r) =>
      var t := floatText(percent(r.meta)) + " %";
      assert t[..|t| - 2] == floatText(percent(r.meta));
      t
  }

  /** `code_savviness`: the share of slides with code, as text. */
  function CodeSavviness(result: Option<AnalysisResult>, floatText: real -> Text): (t: Text)
    ensures t == "" <==> result.None?
    ensures result.Some? ==>
              |t| >= 2 && t[|t| - 2..] == " %"
              && t[..|t| - 2] == floatText(result.value.meta.percentWithCode)
  {
    PercentText(result, (m: Meta) => m.percentWithCode, floatText)
  }

  /** `image_presence`: the share of slides with images, as text. */
  function ImagePresence(result: Option<AnalysisResult>, floatText: real -> Text): (t: Text)
    ensures t == "" <==> result.None?
    ensures result.Some? ==>
              |t| >= 2 && t[|t| - 2..] == " %"
              && t[..|t| - 2] == floatText(result.value.meta.percentWithImages)
  {
    PercentText(result, (m: Meta) => m.percentWithImages, floatText)
  }

  // ---------------------------------------------------------------- server

  /** The server session's state: the reactive cell for the current result. */
  class Server {
    var analysisResult: Option<AnalysisResult>

    constructor ()
      ensures analysisResult == None
    {
      analysisResult := None;
    }

    /** The submit handler: with a file uploaded, the cell is replaced
        wholesale by the (mock) analysis; without one it stays as it was. */
    method AnalyzePresentation(upload: Option<seq<FileInfo>>)
      modifies this
      ensures upload.None? ==> analysisResult == old(analysisResult)
      ensures upload.Some? ==> analysisResult == Some(MockAnalysis())
    {
      if upload.Some? {
        var result := MockAnalysis();
        analysisResult := Some(result);
      }
    }
  }
}
