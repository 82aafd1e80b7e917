# DeckCheck: slide metrics, analysis schema and result shaping

DeckCheck lets a user upload a Quarto presentation and get structured
feedback on it. This project models the part of it that is local logic,
not UI, subprocess or model calls:

- **`SlideMetric`** (`Py/demo/conversation-tool.py`). This is the
  `calculate_slide_metric` tool. It splits the rendered HTML deck on
  `"<section"` and counts the fragments as slides. Two of its metrics are
  the share of fragments that contain `class="sourceCode"` or `"<img"`.
  Any other metric name is an error, and so is a missing HTML file.
  Python's `str.split`, `sep.join`, `in` and `str.count` are defined on
  `seq<char>`.
- **`AnalysisSchema`** (same file). These are the `ScoringCategory` and
  `DeckAnalysis` records with their annotated ranges: score 0..10,
  percent 0..100, minutes ≥ 0, slides ≥ 0. Construction checks the ranges
  and returns either the record or the list of every field that broke its
  constraint.
- **`DeckCheck`** (`Py/deckcheck/app.py`). This covers the mock analysis
  result and the server's result cell, modelled as a class field that the
  submit handler replaces wholesale. It also covers the outputs computed
  from that cell: the chart data, the improvements table with its `Gain`
  column, and the three value-box texts.
- **`Sorting`** (the frames' `sort_values`) and **`Format`** (the f-string
  text of an int) are helpers for `DeckCheck`. **`Wrappers`** holds
  `Option` and `Result`.

The HTML file read becomes two parameters: whether the file exists, and
its content. Python floats become `real`.

Two facts about the code are worth stating outright:

- A deck with no `"<section"` tag still splits into one fragment, so the
  percentage branches never divide by zero. `Split` ensures at least one
  fragment, and `CalculateSlideMetric` gives `total_slides` as the number
  of tags plus one.
- No code in these files renames the misspelled `concistency` field. The
  schema declares it at `Py/demo/conversation-tool.py:94`, and the mock
  uses `consistency` at `Py/deckcheck/app.py:42`.
  `MockCategoriesAgainstSchema` states exactly that difference.

Renderers work on copies of the stored frame. Here they are functions over
the value of the cell, so they cannot change it.

## Model

| member | source | states |
|---|---|---|
| SlideMetric.Split | Py/demo/conversation-tool.py:132 | splitting on a non-empty separator always yields at least one fragment, even for empty content |
| SlideMetric.SplitCount | Py/demo/conversation-tool.py:132-133 | the number of fragments, `total_slides`, is the number of non-overlapping separator occurrences plus one |
| SlideMetric.SplitJoin | Py/demo/conversation-tool.py:132 | joining the fragments with the separator reproduces the content exactly |
| SlideMetric.FragmentsOmitSeparator | Py/demo/conversation-tool.py:132 | no fragment contains the separator |
| SlideMetric.CountContaining | Py/demo/conversation-tool.py:138 | the number of fragments that contain a marker is at most the number of fragments |
| SlideMetric.CountNone | Py/demo/conversation-tool.py:138 | the count is zero exactly when no fragment contains the marker |
| SlideMetric.CountAll | Py/demo/conversation-tool.py:141 | the count equals the number of fragments exactly when every fragment contains the marker |
| SlideMetric.Percent | Py/demo/conversation-tool.py:139 | `(k / n) * 100` for `k <= n`, `n > 0` lies in [0, 100] and times `n` gives `100 k` |
| SlideMetric.ShareOfSlides | Py/demo/conversation-tool.py:137-142 | the share of slides holding a marker is defined for every split result, lies in [0, 100] and satisfies `p * total_slides == 100 * count` |
| SlideMetric.ShareExtremes | Py/demo/conversation-tool.py:137-142 | the share is 0 exactly when no slide holds the marker and 100 exactly when every slide does |
| SlideMetric.CalculateSlideMetric | Py/demo/conversation-tool.py:106-146 | a missing file fails with FileNotFound whatever the metric; `total_slides` is occurrences of `<section` plus one; `code` and `images` give the marker share; any other name fails with UnknownMetric |
| AnalysisSchema.ScoringErrors | Py/demo/conversation-tool.py:42-58 | the reported fields are exactly the out-of-range ones among `score` and `score_after_improvements`; none means valid |
| AnalysisSchema.MakeScoringCategory | Py/demo/conversation-tool.py:48-58 | construction succeeds exactly when both scores are in 0..10, keeps every given field, and otherwise names exactly the failing fields |
| AnalysisSchema.MakeScoringCategoryWithoutImprovements | Py/demo/conversation-tool.py:48-58 | leaving out `improvements` gives None: same success condition, every other given field kept, exactly the failing fields named |
| AnalysisSchema.Categories | Py/demo/conversation-tool.py:70-101 | a deck analysis holds exactly eight category records |
| AnalysisSchema.MetaErrors | Py/demo/conversation-tool.py:43-65 | each summary field is reported exactly when it breaks its range (slides ≥ 0, percents in [0, 100], minutes ≥ 0); only constrained summary field names are reported, never `presentation_title` or `tone` |
| AnalysisSchema.Nested | Py/demo/conversation-tool.py:70-101 | a nested category's errors keep their number and get the category name as prefix |
| AnalysisSchema.CategoryErrors | Py/demo/conversation-tool.py:70-101 | no category error exactly when every category record is valid |
| AnalysisSchema.DeckErrors | Py/demo/conversation-tool.py:60-101 | no error exactly when the summary fields and all eight categories are valid |
| AnalysisSchema.CategoryErrorsMember | Py/demo/conversation-tool.py:70-101 | `name.field` is in the category errors exactly when `field` is an error of the category called `name`; a name no category has is never reported |
| AnalysisSchema.ReportedUndotted | Py/demo/conversation-tool.py:60-65 | a summary-field location is in the deck's errors exactly when `MetaErrors` reports it |
| AnalysisSchema.ReportField | Py/demo/conversation-tool.py:70-101 | `<category>.<field>` is in the deck's errors exactly when that field is an error of that category record |
| AnalysisSchema.DeckErrorsReportScore | Py/demo/conversation-tool.py:49 | `<category>.score` is reported exactly when that category's score is outside 0..10 |
| AnalysisSchema.DeckErrorsReportScoreAfter | Py/demo/conversation-tool.py:55-57 | `<category>.score_after_improvements` is reported exactly when that category's score after improvements is outside 0..10 |
| AnalysisSchema.MakeDeckAnalysis | Py/demo/conversation-tool.py:60-101 | construction succeeds exactly on a valid analysis and then returns it unchanged; otherwise it returns the full, non-empty error list |
| AnalysisSchema.SchemaShape | Py/demo/conversation-tool.py:60-101 | six summary fields, eight distinct category fields disjoint from them, one spelled `concistency` and none `consistency` |
| Format.NatText | Py/deckcheck/app.py:241 | a natural number's text is a non-empty run of digits without a leading zero |
| Format.IntText | Py/deckcheck/app.py:241 | an int's text is '-' exactly for negatives, followed by digits with no leading zero and never "-0" |
| Format.IntTextRoundTrip | Py/deckcheck/app.py:241 | reading back an int's text gives the int |
| Format.IntTextUnique | Py/deckcheck/app.py:241 | a canonical text that reads as `i` is the text of `i`, so each int has exactly one canonical text |
| Sorting.InsertBy | Py/deckcheck/app.py:194 | inserting into a key-ordered sequence keeps it ordered and adds exactly the element |
| Sorting.SortBy | Py/deckcheck/app.py:233 | sorting by a key gives a permutation whose keys never decrease |
| DeckCheck.MockAnalysis | Py/deckcheck/app.py:23-69 | the mock has valid summary fields and exactly eight eval rows in the listed category order; every score and score-after is in 0..10 and every gain is ≥ 0 |
| DeckCheck.MockCategoriesAgainstSchema | Py/deckcheck/app.py:35-44 | the mock's category names match the schema's field names except at the seventh, `consistency` against `concistency` |
| DeckCheck.Scores | Py/deckcheck/app.py:188-197 | no chart data without a result; otherwise a permutation of the evals ordered by score ascending, with the category axis fixed to that order |
| DeckCheck.SuggestedImprovements | Py/deckcheck/app.py:211-235 | the empty frame without a result; otherwise the five columns in order, a permutation of the eval rows ordered by gain descending, each gain equal to score-after minus current score |
| DeckCheck.TableMatchesEvals | Py/deckcheck/app.py:216-233 | the table has one row per eval; each row comes from an eval and each eval appears in the table |
| DeckCheck.TableGainsBounded | Py/deckcheck/app.py:217 | when evals have scores in 0..10 that never drop, every table gain lies in 0..10 |
| DeckCheck.MockTableGains | Py/deckcheck/app.py:217 | the mock's table has every gain in 0..10 |
| DeckCheck.Showtime | Py/deckcheck/app.py:237-241 | "" exactly when there is no result; otherwise the int text of the estimated duration followed by " minutes", whose number reads back as the duration |
| DeckCheck.PercentText | Py/deckcheck/app.py:243-253 | "" exactly when there is no result; otherwise the number's text followed by " %" |
| DeckCheck.CodeSavviness | Py/deckcheck/app.py:243-247 | "" exactly when there is no result; otherwise the text of `percent_with_code` followed by " %" |
| DeckCheck.ImagePresence | Py/deckcheck/app.py:249-253 | "" exactly when there is no result; otherwise the text of `percent_with_images` followed by " %" |
| DeckCheck.Server.constructor | Py/deckcheck/app.py:175 | the result cell starts empty |
| DeckCheck.Server.AnalyzePresentation | Py/deckcheck/app.py:178-186 | without an uploaded file the cell is unchanged; with one it is replaced wholesale by the mock result |

## Left out

- The `quarto render` subprocess, `.env` loading and the Markdown and HTML file reads are I/O. File existence is a flag and the content a parameter.
- The Anthropic chat session, tool registration, the two chat turns, and the token and cost calls are calls to a hosted model.
- `Py/demo/conversation.py`, `Py/demo/app-chat.py` and `Py/demo/app-simple.py` are not part of this model. They hold a subprocess, model calls and async chat streaming, with no local logic.
- SlideMetric.Percent: the source rounds the ratio to two decimals with float arithmetic. The model keeps the exact ratio, because float rounding is not modelled.
- DeckCheck.CodeSavviness: the text Python writes for a float is the parameter `floatText`, because Python's float repr is not modelled. The same holds for DeckCheck.ImagePresence and DeckCheck.PercentText.
- DeckCheck.SuggestedImprovements: the Category column keeps the raw category name, because pandas' `str.title` casing is not modelled.
- DeckCheck.Scores: the plotnine chart itself is not built, only the data and axis order it is drawn from. The model also does not capture pandas rejecting duplicate category names when it builds the ordered categorical.
- The order among rows with equal keys is left open, because `sort_values` is not stable. The contracts state only order and permutation. The model's own sort happens to be stable.
- Shiny's reactive runtime, meaning when renderers re-run, is a plain field read by pure functions. The UI layout, theme, CSS, SVG icons and like/dislike buttons are presentation only.
- Validation machinery beyond the range constraints, such as type coercion and missing-field detection, is covered by Dafny's typing. Construction takes typed values.
