/** The structured-output schema the model's answer must satisfy: one
    scoring record per evaluation category, and the deck analysis holding
    six summary fields and eight categories. Each field's range constraint
    is checked on construction; a failed construction lists every field
    that broke its constraint, as the validation error does. */
module AnalysisSchema {
  import opened Wrappers

  /** Field locations reported by a failed validation, such as "score" or
      "clarity.score_after_improvements". */
  type ErrorLocations = seq<Text>

  predicate IsScore(n: int) { 0 <= n <= 10 }
  predicate IsPercent(x: real) { 0.0 <= x <= 100.0 }
  predicate IsMinutes(n: int) { n >= 0 }
  predicate IsSlideCount(n: int) { n >= 0 }

  datatype ScoringCategory = ScoringCategory(
    score: int,
    justification: Text,
    improvements: Option<Text>,
    scoreAfterImprovements: int)

  predicate ValidScoringCategory(c: ScoringCategory) {
    IsScore(c.score) && IsScore(c.scoreAfterImprovements)
  }

  const ScoreField: Text := "score"
  const ScoreAfterField: Text := "score_after_improvements"

  /** The fields of `c` that violate their constraint, in declaration order. */
  function ScoringErrors(c: ScoringCategory): (errs: ErrorLocations)
    ensures errs == [] <==> ValidScoringCategory(c)
    ensures ScoreField in errs <==> !IsScore(c.score)
    ensures ScoreAfterField in errs <==> !IsScore(c.scoreAfterImprovements)
    ensures forall e :: e in errs ==> e in [ScoreField, ScoreAfterField]
  {
    (if IsScore(c.score) then [] else [ScoreField])
    + (if IsScore(c.scoreAfterImprovements) then [] else [ScoreAfterField])
  }

  /** Constructing a `ScoringCategory`: `improvements` is optional, so the
      caller passes None to get its default. */
  function MakeScoringCategory(score: int, justification: Text, improvements: Option<Text>,
                               scoreAfterImprovements: int): (r: Result<ScoringCategory, ErrorLocations>)
    ensures r.Success? <==> IsScore(score) && IsScore(scoreAfterImprovements)
    ensures r.Success? ==>
              ValidScoringCategory(r.value)
              && r.value == ScoringCategory(score, justification, improvements, scoreAfterImprovements)
    ensures r.Failure? ==>
              r.error != []
              && (ScoreField in r.error <==> !IsScore(score))
              && (ScoreAfterField in r.error <==> !IsScore(scoreAfterImprovements))
              && (forall e :: e in r.error ==> e in [ScoreField, ScoreAfterField])
  {
    var c := ScoringCategory(score, justification, improvements, scoreAfterImprovements);
    var errs := ScoringErrors(c);
    if errs == [] then Success(c) else Failure(errs)
  }

  /** Constructing a `ScoringCategory` without `improvements`. */
  function MakeScoringCategoryWithoutImprovements(score: int, justification: Text,
                                                  scoreAfterImprovements: int): (r: Result<ScoringCategory, ErrorLocations>)
    ensures r.Success? <==> IsScore(score) && IsScore(scoreAfterImprovements)
    ensures r.Success? ==> r.value == ScoringCategory(score, justification, None, scoreAfterImprovements)
    ensures r.Failure? ==>
              r.error != []
              && (ScoreField in r.error <==> !IsScore(score))
              && (ScoreAfterField in r.error <==> !IsScore(scoreAfterImprovements))
              && (forall e :: e in r.error ==> e in [ScoreField, ScoreAfterField])
  {
    MakeScoringCategory(score, justification, None, scoreAfterImprovements)
  }

  /** The misspelled `concistency` field keeps its declared name. */
  datatype DeckAnalysis = DeckAnalysis(
    presentationTitle: Text,
    totalSlides: int,
    percentWithCode: real,
    percentWithImages: real,
    estimatedDurationMinutes: int,
    tone: Text,
    clarity: ScoringCategory,
    relevance: ScoringCategory,
    visualDesign: ScoringCategory,
    engagement: ScoringCategory,
    pacing: ScoringCategory,
    structure: ScoringCategory,
    concistency: ScoringCategory,
    accessibility: ScoringCategory)

  /** The declared names of the six summary fields, in order. */
  const MetaFieldNames: seq<Text> := [
    "presentation_title", "total_slides", "percent_with_code",
    "percent_with_images", "estimated_duration_minutes", "tone"]

  /** The declared names of the eight category fields, in order. */
  const CategoryFieldNames: seq<Text> := [
    "clarity", "relevance", "visual_design", "engagement",
    "pacing", "structure", "concistency", "accessibility"]

  /** The eight category records of `d`, in declaration order. */
  function Categories(d: DeckAnalysis): (cs: seq<ScoringCategory>)
    ensures |cs| == |CategoryFieldNames|
  {
    [d.clarity, d.relevance, d.visualDesign, d.engagement,
     d.pacing, d.structure, d.concistency, d.accessibility]
  }

  predicate ValidMeta(d: DeckAnalysis) {
    IsSlideCount(d.totalSlides) && IsPercent(d.percentWithCode)
    && IsPercent(d.percentWithImages) && IsMinutes(d.estimatedDurationMinutes)
  }

  predicate ValidDeckAnalysis(d: DeckAnalysis) {
    ValidMeta(d)
    && forall i :: 0 <= i < |Categories(d)| ==> ValidScoringCategory(Categories(d)[i])
  }

  /** The summary fields of `d` that violate their constraint, in
      declaration order. */
  function MetaErrors(d: DeckAnalysis): (errs: ErrorLocations)
    ensures errs == [] <==> ValidMeta(d)
    ensures "total_slides" in errs <==> !IsSlideCount(d.totalSlides)
    ensures "percent_with_code" in errs <==> !IsPercent(d.percentWithCode)
    ensures "percent_with_images" in errs <==> !IsPercent(d.percentWithImages)
    ensures "estimated_duration_minutes" in errs <==> !IsMinutes(d.estimatedDurationMinutes)
    ensures forall e :: e in errs ==> e in MetaFieldNames
    ensures "presentation_title" !in errs && "tone" !in errs
  {
    (if IsSlideCount(d.totalSlides) then [] else ["total_slides"])
    + (if IsPercent(d.percentWithCode) then [] else ["percent_with_code"])
    + (if IsPercent(d.percentWithImages) then [] else ["percent_with_images"])
    + (if IsMinutes(d.estimatedDurationMinutes) then [] else ["estimated_duration_minutes"])
  }

  /** The nested errors of category `name`, each prefixed with "name.". */
  function Nested(name: Text, errs: ErrorLocations): (r: ErrorLocations)
    ensures |r| == |errs|
    ensures forall i :: 0 <= i < |r| ==> r[i] == name + "." + errs[i]
    ensures forall x :: x in r ==> '.' in x
  {
    if errs == [] then [] else
      var x := name + "." + errs[0];
      assert x[|name|] == '.';
      [x] + Nested(name, errs[1..])
  }

  /** A name without a dot, a dot and a rest: the name and the rest can be
      read back from the joined text. */
  lemma DottedInjective(a: Text, b: Text, c: Text, e: Text)
    requires '.' !in a && '.' !in c
    requires a + "." + b == c + "." + e
    ensures a == c && b == e
  {
    var x := a + "." + b;
    assert x[|a|] == '.' && x[|c|] == '.';
    assert |a| == |c|;
    assert a == x[..|a|] == c;
    assert b == x[|a| + 1..] == e;
  }

  /** Which dotted locations a category's nested errors hold. */
  lemma NestedMember(name: Text, errs: ErrorLocations, other: Text, f: Text)
    requires '.' !in name && '.' !in other
    ensures other + "." + f in Nested(name, errs) <==> other == name && f in errs
  {
    var r := Nested(name, errs);
    if other + "." + f in r {
      var i :| 0 <= i < |r| && r[i] == other + "." + f;
      DottedInjective(name, errs[i], other, f);
    }
    if other == name && f in errs {
      var i :| 0 <= i < |errs| && errs[i] == f;
      assert r[i] == other + "." + f;
    }
  }

  /** The errors of the categories `cs`, named by `names`, in order. */
  function CategoryErrors(names: seq<Text>, cs: seq<ScoringCategory>): (errs: ErrorLocations)
    requires |names| == |cs|
    ensures errs == [] <==> forall j :: 0 <= j < |cs| ==> ValidScoringCategory(cs[j])
    decreases |cs|
  {
    if cs == [] then []
    else
      var rest := CategoryErrors(names[1..], cs[1..]);
      assert forall j :: 1 <= j < |cs| ==> cs[j] == cs[1..][j - 1];
      Nested(names[0], ScoringErrors(cs[0])) + rest
  }

  predicate DistinctNames(names: seq<Text>) {
    forall i, j :: 0 <= i < j < |names| ==> names[i] != names[j]
  }

  /** The category errors name category `other` with field `f` exactly
      when `f` is an error of the category called `other`. */
  lemma {:induction false} CategoryErrorsMember(names: seq<Text>, cs: seq<ScoringCategory>, other: Text, f: Text)
    requires |names| == |cs| && DistinctNames(names)
    requires forall i :: 0 <= i < |names| ==> '.' !in names[i]
    requires '.' !in other
    ensures other !in names ==> other + "." + f !in CategoryErrors(names, cs)
    ensures forall j :: 0 <= j < |cs| && names[j] == other ==>
              (other + "." + f in CategoryErrors(names, cs) <==> f in ScoringErrors(cs[j]))
    decreases |cs|
  {
    if cs != [] {
      var tail := names[1..];
      assert forall i :: 0 <= i < |tail| ==> tail[i] == names[i + 1];
      CategoryErrorsMember(tail, cs[1..], other, f);
      NestedMember(names[0], ScoringErrors(cs[0]), other, f);
      if other == names[0] {
        assert other !in tail;
      }
      forall j | 0 <= j < |cs| && names[j] == other
        ensures other + "." + f in CategoryErrors(names, cs) <==> f in ScoringErrors(cs[j])
      {
        if j > 0 {
          assert tail[j - 1] == other && cs[1..][j - 1] == cs[j];
        }
      }
    }
  }

  /** Every location the category errors report holds a dot. */
  lemma {:induction false} CategoryErrorsDotted(names: seq<Text>, cs: seq<ScoringCategory>)
    requires |names| == |cs|
    ensures forall x :: x in CategoryErrors(names, cs) ==> '.' in x
    decreases |cs|
  {
    if cs != [] {
      CategoryErrorsDotted(names[1..], cs[1..]);
    }
  }

  /** Every constraint violation of `d`: summary fields first, then the
      categories in declaration order. */
  function DeckErrors(d: DeckAnalysis): (errs: ErrorLocations)
    ensures errs == [] <==> ValidDeckAnalysis(d)
  {
    MetaErrors(d) + CategoryErrors(CategoryFieldNames, Categories(d))
  }

  /** Constructing a `DeckAnalysis` from its fourteen fields. */
  function MakeDeckAnalysis(d: DeckAnalysis): (r: Result<DeckAnalysis, ErrorLocations>)
    ensures r.Success? <==> ValidDeckAnalysis(d)
    ensures r.Success? ==> r.value == d
    ensures r.Failure? ==> r.error != [] && r.error == DeckErrors(d)
  {
    var errs := DeckErrors(d);
    if errs == [] then Success(d) else Failure(errs)
  }

  /** A location without a dot is in the deck's errors exactly when it is
      a summary-field error; `MetaErrors` says which field each one names. */
  lemma ReportedUndotted(d: DeckAnalysis, x: Text)
    requires '.' !in x
    ensures x in DeckErrors(d) <==> x in MetaErrors(d)
  {
    CategoryErrorsDotted(CategoryFieldNames, Categories(d));
  }

  /** A category's score is reported, under the category's declared
      name, exactly when it is out of range. */
  lemma DeckErrorsReportScore(d: DeckAnalysis, i: nat)
    requires i < |CategoryFieldNames|
    ensures CategoryFieldNames[i] + "." + ScoreField in DeckErrors(d)
            <==> !IsScore(Categories(d)[i].score)
  {
    ReportField(d, i, ScoreField);
  }

  /** A category's score after improvements is reported, under the
      category's declared name, exactly when it is out of range. */
  lemma DeckErrorsReportScoreAfter(d: DeckAnalysis, i: nat)
    requires i < |CategoryFieldNames|
    ensures CategoryFieldNames[i] + "." + ScoreAfterField in DeckErrors(d)
            <==> !IsScore(Categories(d)[i].scoreAfterImprovements)
  {
    ReportField(d, i, ScoreAfterField);
  }

  /** Field `f` of category `i` is reported exactly when it is among that
      category's own errors. */
  lemma ReportField(d: DeckAnalysis, i: nat, f: Text)
    requires i < |CategoryFieldNames|
    ensures CategoryFieldNames[i] + "." + f in DeckErrors(d) <==> f in ScoringErrors(Categories(d)[i])
  {
    var name := CategoryFieldNames[i];
    var x := name + "." + f;
    assert x[|name|] == '.';
    CategoryNamesWellFormed();
    ReportedUnderName(d, x);
    CategoryErrorsMember(CategoryFieldNames, Categories(d), name, f);
    assert CategoryFieldNames[i] == name;
  }

  /** A dotted location is in the deck's errors exactly when it is in
      the category errors. */
  lemma ReportedUnderName(d: DeckAnalysis, x: Text)
    requires '.' in x
    ensures x in DeckErrors(d) <==> x in CategoryErrors(CategoryFieldNames, Categories(d))
  {
    DottedNotMeta(d, x);
  }

  lemma CategoryNamesWellFormed()
    ensures DistinctNames(CategoryFieldNames)
    ensures forall k :: 0 <= k < |CategoryFieldNames| ==> '.' !in CategoryFieldNames[k]
  {
  }

  /** A location of the form "name.rest" is never a summary-field error. */
  lemma DottedNotMeta(d: DeckAnalysis, x: Text)
    requires '.' in x
    ensures x !in MetaErrors(d)
  {
    assert forall n :: n in MetaFieldNames ==> '.' !in n;
  }

  /** The schema declares six summary fields and eight distinct category
      fields, one of which is spelled "concistency". */
  lemma SchemaShape()
    ensures |MetaFieldNames| == 6 && |CategoryFieldNames| == 8
    ensures forall i, j :: 0 <= i < j < |CategoryFieldNames| ==> CategoryFieldNames[i] != CategoryFieldNames[j]
    ensures forall n :: n in MetaFieldNames ==> n !in CategoryFieldNames
    ensures "concistency" in CategoryFieldNames && "consistency" !in CategoryFieldNames
  {
  }
}
