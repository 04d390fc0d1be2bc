# Big Five (OCEAN) questionnaire: scoring, classification and wizard

This project models the computational core of a Streamlit application that
runs a workplace Big Five personality questionnaire: fifty Likert items, ten
per dimension (Apertura, Responsabilidad, Extraversión, Amabilidad,
Estabilidad Emocional), five of them direct-keyed and five reverse-keyed.
The application:

- collects one answer on the 1..5 scale per item through a step-by-step
  wizard;
- turns the answers into a 0..100 score per dimension;
- labels each score with one of five levels;
- picks a work-profile block (strengths, risks, recommendations, suggested
  roles, roles to avoid) for each dimension.

The project has four modules:

- `Questionnaire` (questionnaire.dfy): the dimensions, the item catalog
  (`PREGUNTAS`) as fifty `Item` values and reverse keying. An item's key is
  its dimension's code letter followed by its number, "O1" .. "N10".
- `Scoring` (scoring.dfy): `compute_scores` and `as_percent`.
  - `ComputeScores` is an imperative method with the source's two loops.
    The first loop, which appends each item's value to its dimension's
    list, is the method `GroupByDimension`.
  - `GroupByDimension` is proved to build, for each dimension, the list
    that the specification function `Collect` describes. `ComputeScores` is
    proved to return exactly the specification function `Scores`.
  - Every property of the scores is proved about `Scores`.
  - Scores are exact rationals (`real`). Every dimension has exactly ten
    items, so a score is always `(sum - 10) * 2.5` and the rounding to one
    decimal never changes it (`ScoreIsExact`).
- `Classification` (classification.dfy): `level_label` and the branch
  choice of `build_dimension_blocks`. The Spanish texts are abstract tokens
  that record which list, or which fixed sentence, they come from.
- `Wizard` (wizard.dfy): the session state as a class `Session`, with one
  method per transition:
  - the answer callback (`on_select`);
  - the start button;
  - the reset button;
  - the router, and the guards at the top of the test and results views.

  The invariant `Valid` says three things:
  - the answer map holds exactly the catalog keys, and every given answer
    is on the Likert scale;
  - every question before the current one has been answered;
  - the results page is only ever shown after the fiftieth answer, together
    with the scores of the current answers.

A score of exactly 40 is labelled "Promedio" by `level_label`, but
`build_dimension_blocks` shows the low block for it, including its "not
suited for" list. `BlocksFollowLevel` states this boundary case.

## Model

| member | source | states |
|---|---|---|
| Questionnaire.ReverseScore | streamlit_app.py:82-83 | an answer is on the 1..5 scale iff its reversal is |
| Questionnaire.ReverseScoreInvolution | streamlit_app.py:82-83 | reversing twice gives the answer back, and an answer plus its reversal is always 6 |
| Questionnaire.ReverseScoreOnLikert | streamlit_app.py:82-83 | reversing maps 1..5 onto 1..5 (an answer is on the scale iff its reversal is, and every scale value is the reversal of one): 1<->5, 2<->4, 3 fixed |
| Questionnaire.CatalogByDimension | streamlit_app.py:87-152 | the catalog constant `Catalog` (built by `CatalogItems`) has 50 items; selecting one dimension's items gives exactly its ten items in order, the first five direct-keyed and the last five reverse-keyed |
| Questionnaire.CatalogKeysUnique | streamlit_app.py:87-152 | no two catalog items share a key |
| Questionnaire.BlockKeyOwner | streamlit_app.py:87-152 | a catalog item with the key of item j of dimension d is that item (same dimension, same keying) |
| Questionnaire.QuestionKeyInjective | streamlit_app.py:87-152 | two items have the same key only if they are the same item number of the same dimension |
| Questionnaire.BlockInCatalog | streamlit_app.py:87-152 | every item of a dimension's block is in the catalog |
| Scoring.Answer | streamlit_app.py:174-176 | the answer to a key counts 3 when the key is absent or unset; with every given answer on 1..5 it is on 1..5 |
| Scoring.ItemValue | streamlit_app.py:174-178 | an item contributes its answer when direct-keyed and the answer's mirror around 3 (the two summing to 6) when reverse-keyed, and stays on 1..5 |
| Scoring.Collect | streamlit_app.py:172-179 | the list appended for a dimension while walking a prefix of the catalog holds one value per item of that dimension in the prefix |
| Scoring.GroupByDimension | streamlit_app.py:172-179 | the first loop leaves, for each dimension, the item values of that dimension in catalog order: the answer, 3 when missing or unset, reversed for reverse-keyed items |
| Scoring.ComputeScores | streamlit_app.py:171-184 | the returned map has an entry for every dimension and equals `Scores(answers)`, the score of each dimension's averaged list (3 for an empty list) rescaled to a percentage |
| Scoring.Scores | streamlit_app.py:171-184 | the score map has an entry for every dimension (the type `Dim` holds no other key) |
| Scoring.DimensionValues | streamlit_app.py:172-179 | the list built for a dimension is the values of its ten items, so it is never empty |
| Scoring.AsPercent | streamlit_app.py:167-169 | a mean on 1..5 rescales to a percentage within 0..100 |
| Scoring.RoundTenth | streamlit_app.py:169 | rounding to one decimal moves a value by at most 0.05 and gives a whole number of tenths |
| Scoring.RoundTenthKeepsTenths | streamlit_app.py:169 | rounding leaves a value that is already a whole number of tenths unchanged |
| Scoring.AsPercentOfTenItems | streamlit_app.py:167-169 | the rescaled mean of ten values summing to s is exactly (s - 10) * 2.5 |
| Scoring.AsPercentLandmarks | streamlit_app.py:167-169 | the scale end 1 maps to 0, the midpoint 3 to 50 and the end 5 to 100 |
| Scoring.ScoreIsExact | streamlit_app.py:181-183 | the score `DimScore` gives a dimension (the mean of its list, rescaled and rounded) and that `Scores` records for it is exactly (sum of its ten item values - 10) * 2.5 |
| Scoring.ScoresInRange | streamlit_app.py:171-184 | with every given answer on 1..5, every dimension has a score within 0..100 |
| Scoring.NeutralBaseline | streamlit_app.py:174-176 | with nothing answered (all keys unset or absent) every dimension scores exactly 50, despite reverse keying |
| Scoring.FullTraitScoresHundred | streamlit_app.py:177-183 | answering every item of d in the trait's direction (direct 5, reverse 1) scores d at 100 |
| Scoring.NoTraitScoresZero | streamlit_app.py:177-183 | answering every item of d against the trait (direct 1, reverse 5) scores d at 0 |
| Scoring.ForeignKeysIgnored | streamlit_app.py:173-174 | two answer maps that agree on the answers of the catalog keys give the same scores; other keys are ignored |
| Scoring.MissingCountsAsNeutral | streamlit_app.py:174-176 | an absent key, an unset answer and an explicit 3 score alike |
| Scoring.SumBounds | streamlit_app.py:181-183 | a list of values on 1..5 sums to between its length and five times its length |
| Scoring.SumUpdate | streamlit_app.py:181-183 | replacing one value of a list changes its sum by the difference |
| Scoring.AnswerShiftsBlockItem | streamlit_app.py:173-183 | re-answering item j of dimension d moves d's score by +2.5 (direct) or -2.5 (reverse) per Likert step and leaves every other dimension's score unchanged |
| Scoring.AnswerShiftsOneDimension | streamlit_app.py:173-183 | the same for the item at catalog position i |
| Scoring.RaisingDirectAnswerNeverLowers | streamlit_app.py:173-183 | raising the answer to a direct-keyed item never lowers its dimension's score |
| Scoring.RaisingReverseAnswerNeverRaises | streamlit_app.py:177-183 | raising the answer to a reverse-keyed item never raises its dimension's score |
| Classification.LevelLabel | streamlit_app.py:186-191 | the tag returned always has the rank of the level returned |
| Classification.LevelIsBreakpointsReached | streamlit_app.py:186-191 | the level of a score is the number of breakpoints 25, 40, 60, 75 it reaches, and the tag always goes with its level |
| Classification.LevelMonotone | streamlit_app.py:186-191 | a higher score never gets a lower level |
| Classification.LevelBuckets | streamlit_app.py:186-191 | each label holds exactly the scores from its breakpoint (included) up to the next (excluded); the function is total |
| Classification.LevelBoundaries | streamlit_app.py:186-191 | 75, 60, 40 and 25 get the upper label; 74.9, 59.9, 39.9 and 24.9 the lower one |
| Classification.BaseProfile | streamlit_app.py:399-483 | every dimension's profile has three high and three low traits, one "not suited for" entry, at least three high roles and at least one low role |
| Classification.DimensionBlocks | streamlit_app.py:484-516 | the block explains the dimension with its own text, lists "not suited for" entries iff the score is at most 40, always suggests roles and gives at least two recommendations |
| Classification.DimensionBlocksBranches | streamlit_app.py:484-516 | from 60 the block lists the high traits and high roles and rules nothing out; up to 40 (included) it lists the low traits as risks, the low roles and the "not suited for" entries (non-empty); in between the balanced block rules nothing out; every branch explains the dimension with its own text |
| Classification.BlocksFollowLevel | streamlit_app.py:485-514 | the high roles are suggested iff the level is Alto or Muy Alto; a "not suited for" list is shown iff the level is Bajo or Muy Bajo or the score is exactly 40 |
| Wizard.EmptyAnswers | streamlit_app.py:160 | the fresh answer map holds every catalog key, all unset |
| Wizard.EmptyAnswersScoreNeutral | streamlit_app.py:160 | the fresh answer map scores 50 in every dimension |
| Wizard.RecordAnswer | streamlit_app.py:521-527 | recording a Likert answer to the current question keeps the key set and extends the answered prefix by one |
| Wizard.Session.constructor | streamlit_app.py:155-164 | a new session is on the start page at question 0, with every answer unset, no result and no date, and satisfies the invariant |
| Wizard.Session.OnSelect | streamlit_app.py:519-531 | with a current question and a selection, only that question's answer is set and the index advances by one; at the fiftieth answer the result becomes the scores, the date is stamped and the results page is shown; otherwise nothing changes; the invariant is kept |
| Wizard.Session.Start | streamlit_app.py:558-560 | the start button shows the questions from the first one and keeps the invariant |
| Wizard.Session.Reset | streamlit_app.py:744-748 | the reset button returns to the start page at question 0 with every answer unset and no result, keeping the invariant |
| Wizard.Session.TestGuard | streamlit_app.py:563-569 | on the questions page past the last question, the result becomes the scores of the answers, the date is stamped and the results page is shown; otherwise nothing changes; the invariant is kept |
| Wizard.Session.ResultsGuard | streamlit_app.py:609-613 | on the results page without a result (none, or an empty map) the start page is shown instead; from a valid session this never happens |
| Wizard.Session.Route | streamlit_app.py:750-759 | the router sends the questions and results stages to their guards, leaves the start page alone and sends any other stage back to the start page; the invariant is kept |
| Wizard.ResultsComplete | streamlit_app.py:528-531 | whenever the results page is shown, all fifty questions are answered and every dimension has a score within 0..100 |

## Left out

- Everything the application draws: the CSS, text, columns, tabs, radio
  widget, progress bar and `st.rerun` of the Streamlit views. Only their
  effect on the session state is modelled.
- The Plotly gauge, radar and bar charts, and the PDF report built with
  matplotlib. These are floating-point drawing and foreign library calls.
  This includes the report's float statistics (mean, standard deviation and
  range of the five scores).
- The clock: `datetime.now()` formatted as text is the `now` parameter of
  `OnSelect`, `TestGuard` and `Route`.
- The item texts, dimension descriptions and colours, and the Spanish
  sentences of the block catalog. They are presentation data; an item is its
  dimension, key and keying, and a block text is a token naming its origin.
- Floating point: `np.mean` and `round(..., 1)` are modelled on exact
  rationals, and `round` as rounding half to even. Every score the scoring
  can produce is a whole number of half points, so the rounding is exact
  there.
- Scoring.ComputeScores: the source's dictionary of lists is a map from
  `Dim` to a sequence, and its iteration order is the order of the
  dimension list. The dimension names are the constructors of `Dim`, so a
  catalog item with a dimension name outside the list cannot be expressed.
- Wizard.Session.OnSelect: requires a given selection to be on 1..5. The
  radio widget offers only the five Likert values.
- The questions page with a negative index would show an item counted from
  the end of the list; this display is not modelled, and the invariant
  keeps the index within 0..50.
- The start button keeps the previous answers, the previous result and the
  date, as the source does. The reset button clears the stage, index,
  answers and result but not the date, as the source does.
