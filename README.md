# Operational equity toolkit: verified model of its core logic

This project is a Dafny model of three self-contained parts of a maternal
health equity analysis repository, with proofs of what each part promises.

- **The assessment scoring engine** (`EquityFrameworkScorer`,
  `framework/scoring_algorithm.py`), in module `Scoring` (`scoring.dfy`).
  A respondent answers questions in three pillars: PROCESS, PEOPLE and
  TECHNOLOGY. Each answer is worth the points its question's option map
  gives it, or 0 when the map does not know the answer. The engine then
  computes:
  - each pillar's points, its maximum (5 per question) and its percentage;
  - the overall percentage, which is the unweighted mean of the three pillar percentages;
  - the four-band interpretation of a percentage;
  - the "gaps", which are the answered questions scoring at or below a threshold;
  - the priority pillar, which is the head of a stable ascending sort of the pillar percentages;
  - the pillar's fixed five recommended actions;
  - the overall message band.

  The question catalog is an immutable `Catalog` value passed to every operation.
  Percentages are exact `real` numbers.
- **The emoji stripper** (`scripts/remove_all_emojis.py`), in module
  `EmojiRemoval` (`emoji.dfy`). It has four parts:
  - the character filter `remove_emojis` over the ten code-point ranges of `EMOJI_PATTERN`;
  - the text-file decision (is the file rewritten?);
  - the in-place cell loop of `clean_jupyter_notebook` over an `array<Cell>`, with its `changes_made` flag;
  - the exclusion test and collection loop of `find_files_to_clean`, given what each glob pattern yields.
- **Race/ethnicity standardisation** (`create_race_ethnicity`,
  `src/analysis.py`), in module `RaceEthnicity` (`race.dfy`). This is an
  ordered decision list of substring tests over the "Hispanic Origin" and
  "Race" texts of a row. It yields one of seven labels.

Module `Strings` (`strings.dfy`) defines substring containment, the meaning of
Python's `sub in s`, and is shared by the last two.

Python characters are Unicode code points; Dafny's `char` is a Unicode scalar
value, so lone surrogates are not representable (see Left out).

## Model

| member | source | states |
|---|---|---|
| Scoring.QuestionScore | framework/scoring_algorithm.py:55-72 | a known answer scores its mapped points, an unknown answer scores 0 and is not an error, and with a 0..5 scoring map the score is in 0..5 |
| Scoring.CalculatePillarScore | framework/scoring_algorithm.py:74-103 | the loop's total is the sum of the answered questions' scores, the maximum is 5 per question, the percentage is points/max*100, or 0 without questions, and on a well-formed catalog 0 <= points <= max and the percentage is in [0,100] |
| Scoring.PillarPointsBounds | framework/scoring_algorithm.py:90-99 | with every scoring value in 0..5, a pillar's points lie between 0 and 5 x number of questions |
| Scoring.PillarPointsConcat | framework/scoring_algorithm.py:94-99 | the pillar total is additive over any split of the question list |
| Scoring.PillarPointsSkipUnanswered | framework/scoring_algorithm.py:94-99 | an unanswered question adds nothing, wherever it stands |
| Scoring.PillarPointsNoResponses | framework/scoring_algorithm.py:94-99 | with no answers a pillar earns 0 points |
| Scoring.PillarPointsAllMax | framework/scoring_algorithm.py:92-99 | full marks on every question give exactly the pillar maximum |
| Scoring.PillarPointsReadsOwnAnswers | framework/scoring_algorithm.py:94-99 | a pillar's total depends only on the answers to its own question ids |
| Scoring.PercentBounds | framework/scoring_algorithm.py:101 | points within [0, max] give a percentage within [0, 100] |
| Scoring.PercentCrossMultiplied | framework/scoring_algorithm.py:101 | comparing a percentage with a bound is the same as comparing points*100 with bound*max |
| Scoring.PillarPercentageBounds | framework/scoring_algorithm.py:90-103 | on a well-formed catalog every pillar percentage is in [0, 100] |
| Scoring.InterpretBand | framework/scoring_algorithm.py:174-181 | the band chosen for a percentage is the one whose interval holds it: at most 40, (40,60], (60,80] or above 80 |
| Scoring.Interpret | framework/scoring_algorithm.py:174-181 | the text returned is the guide's 0-40 entry at or below 40, the 41-60 entry in (40,60], the 61-80 entry in (60,80] and the 81-100 entry above 80 |
| Scoring.InterpretBandPartition | framework/scoring_algorithm.py:174-181 | the four bands are exhaustive and disjoint: at most 40, (40,60], (60,80] and above 80, with inclusive upper bounds |
| Scoring.InterpretBandMonotone | framework/scoring_algorithm.py:174-181 | a higher percentage never gets a lower band |
| Scoring.OverallBounds | framework/scoring_algorithm.py:145 | on a well-formed catalog the overall percentage is in [0, 100] |
| Scoring.OverallBetweenPillars | framework/scoring_algorithm.py:145 | the overall percentage lies between the lowest and the highest pillar percentage |
| Scoring.CalculateOverallScore | framework/scoring_algorithm.py:105-158 | the result has an entry for each of the three pillars holding its points, maximum, percentage and interpretation; the overall percentage is the mean of the three pillar percentages, with its interpretation and per-pillar breakdown; on a well-formed catalog it is in [0, 100] |
| Scoring.PillarGaps | framework/scoring_algorithm.py:204-218 | a pillar has at most one gap per question, and every gap scores at or below the threshold with a maximum of 5 |
| Scoring.PillarGapsMember | framework/scoring_algorithm.py:204-218 | a gap is listed exactly when it is the record of an answered question scoring at or below the threshold |
| Scoring.PillarGapsConcat | framework/scoring_algorithm.py:204-218 | gaps keep question order: the gaps of a split list are the gaps of its parts, in order |
| Scoring.PillarGapsNoResponses | framework/scoring_algorithm.py:204-218 | with no answers there are no gaps |
| Scoring.CollectGaps | framework/scoring_algorithm.py:204-218 | the inner loop appends exactly the pillar's gaps, in question order |
| Scoring.IdentifyGaps | framework/scoring_algorithm.py:183-220 | the result has an entry for every pillar, and each entry is exactly that pillar's gap list (the threshold is a parameter; its default 2 is `DefaultThreshold`) |
| Scoring.InsertByScore | framework/scoring_algorithm.py:276 | stable insertion keeps every element and puts the new one first when it is not above the current head |
| Scoring.SortByScore | framework/scoring_algorithm.py:276 | the sort is a permutation of its input and its scores ascend |
| Scoring.InsertAscending | framework/scoring_algorithm.py:276 | inserting into an ascending list keeps it ascending |
| Scoring.InsertWithScore | framework/scoring_algorithm.py:276 | insertion places the new element before every element of equal score, and leaves the order among the others |
| Scoring.SortByScoreStable | framework/scoring_algorithm.py:276 | the sort is stable: for every score, the elements carrying it appear in the same order as in the input |
| Scoring.FirstMinIndex | framework/scoring_algorithm.py:274-278 | the first position holding a minimum score: nothing is lower, and everything before it is strictly higher |
| Scoring.SortHeadIsFirstMin | framework/scoring_algorithm.py:276-278 | the head of the stable sort is the first element with the minimum score |
| Scoring.PriorityFocus | framework/scoring_algorithm.py:274-279 | the chosen pillar has the minimum score, and every pillar before it scores strictly higher, so ties go to declaration order |
| Scoring.TiesGoToFirstPillar | framework/scoring_algorithm.py:275-278 | when all three pillars tie, PROCESS is the priority |
| Scoring.RecommendedActions | framework/scoring_algorithm.py:286-308 | each pillar has exactly five fixed actions |
| Scoring.OverallMessage | framework/scoring_algorithm.py:321-336 | the message chosen is the one whose interval holds the overall score: below 40 CRITICAL, [40,60) MODERATE, [60,80) STRONG, from 80 BEST-IN-CLASS |
| Scoring.MessageVersusInterpretation | framework/scoring_algorithm.py:321-336 | the message bands (strict `<`) agree with the interpretation bands (`<=`) except at exactly 40, 60 and 80, where the message is one band higher |
| Scoring.FortyIsModerate | framework/scoring_algorithm.py:321-328 | exactly 40 is interpreted as "0-40" but gets the MODERATE message |
| Scoring.GenerateRecommendations | framework/scoring_algorithm.py:265-336 | the focus pillar has the minimum percentage, every earlier pillar scores strictly higher, the actions are that pillar's five, and the message is the band of the overall percentage |
| Scoring.GoldenScenario | framework/scoring_algorithm.py:145-149 | pillars at 40, 34 and 21 average to 95/3, which is in the 0-40 band with the CRITICAL message, and TECHNOLOGY is the focus |
| Scoring.PillarPercentageNoResponses | framework/scoring_algorithm.py:90-103 | with no answers every pillar scores 0 percent |
| Scoring.NoResponsesScenario | framework/scoring_algorithm.py:128-149 | with no answers the overall score is 0, in the 0-40 band, with CRITICAL, and PROCESS is the focus |
| Scoring.PillarPercentageAllMax | framework/scoring_algorithm.py:90-103 | a non-empty pillar with full marks everywhere scores exactly 100 percent |
| Scoring.AllMaxScenario | framework/scoring_algorithm.py:145-149 | full marks everywhere give 100 overall, in the 81-100 band, with BEST-IN-CLASS |
| EmojiRemoval.EmojiRangesUnion | scripts/remove_all_emojis.py:24-38 | the ten ranges cover exactly four intervals: U+24C2..U+1F251, U+1F300..U+1F64F, U+1F680..U+1F6FF and U+1F900..U+1FA6F |
| EmojiRemoval.WideRangeRemovesText | scripts/remove_all_emojis.py:31 | the U+24C2..U+1F251 range also matches CJK ideographs and Hangul, but not ASCII or Latin-1 letters |
| EmojiRemoval.RemoveEmojis | scripts/remove_all_emojis.py:40-42 | no pattern character remains, and the output is no longer than the input |
| EmojiRemoval.RemoveEmojisMembers | scripts/remove_all_emojis.py:42 | every character outside the ranges survives, and every output character comes from the input |
| EmojiRemoval.RemoveEmojisConcat | scripts/remove_all_emojis.py:42 | the filter distributes over concatenation, so order is kept and nothing is inserted |
| EmojiRemoval.RemoveEmojisSingle | scripts/remove_all_emojis.py:42 | one character is kept exactly when it is not a pattern character |
| EmojiRemoval.RemoveEmojisUnchangedIff | scripts/remove_all_emojis.py:40-42 | text comes back unchanged exactly when it holds no pattern character |
| EmojiRemoval.RemoveEmojisIdempotent | scripts/remove_all_emojis.py:40-42 | removing twice gives the same text as removing once |
| EmojiRemoval.CleanText | scripts/remove_all_emojis.py:77-90 | the cleaned text is the filtered text, and the file is rewritten exactly when it holds a pattern character |
| EmojiRemoval.CleanSource | scripts/remove_all_emojis.py:54-60 | a string source is cleaned as a whole; a list source is cleaned line by line and keeps its number of lines |
| EmojiRemoval.CleanSourceChangesIff | scripts/remove_all_emojis.py:54-62 | a cleaned source differs from the original exactly when the original holds a pattern character |
| EmojiRemoval.CleanCell | scripts/remove_all_emojis.py:53-64 | a cell without a source is returned as it is; otherwise its source becomes the cleaned source, and its type never changes |
| EmojiRemoval.CleanCellChangesIff | scripts/remove_all_emojis.py:53-64 | a cell is rewritten exactly when it has a source holding a pattern character; a cell without a source is untouched, and nothing but the source changes |
| EmojiRemoval.CleanCellIdempotent | scripts/remove_all_emojis.py:52-64 | cleaning a cell twice is the same as cleaning it once, and a cleaned cell never changes again |
| EmojiRemoval.CleanNotebookCells | scripts/remove_all_emojis.py:50-66 | every cell becomes its cleaned self in place, and `changes_made` is true exactly when some cell's cleaned source differs from the original |
| EmojiRemoval.CleanTwiceReportsNoChange | scripts/remove_all_emojis.py:50-66 | a notebook cleaned once reports no change when cleaned again |
| EmojiRemoval.LastDot | scripts/remove_all_emojis.py:118 | the index found for `Path.suffix` is -1 or a position of a '.' in the name |
| EmojiRemoval.LastDotIsLast | scripts/remove_all_emojis.py:118 | no '.' follows the one found, so it is the last dot |
| EmojiRemoval.BackupSuffixSubsumed | scripts/remove_all_emojis.py:113-119 | the skip test `IsExcluded`: a path is excluded exactly when a component is an excluded directory or its name contains "backup"; the `.backup` suffix test adds nothing |
| EmojiRemoval.Kept | scripts/remove_all_emojis.py:113-122 | one pattern contributes at most one entry per globbed path |
| EmojiRemoval.KeptMember | scripts/remove_all_emojis.py:113-122 | an entry is kept exactly when its path was globbed, is not skipped, and carries the pattern's type |
| EmojiRemoval.AppendKept | scripts/remove_all_emojis.py:113-122 | the inner loop appends exactly one pattern's non-excluded paths, in glob order, to the list |
| EmojiRemoval.KeptAllMember | scripts/remove_all_emojis.py:112-122 | an entry is collected exactly when some pattern globbed its path with that type and the path is not excluded |
| EmojiRemoval.FindFilesToClean | scripts/remove_all_emojis.py:96-124 | the collected list is the patterns' non-excluded paths, pattern after pattern, and its members are exactly the non-excluded globbed paths tagged with their pattern's type |
| RaceEthnicity.Classify | src/analysis.py:183-204 | the result is one of the seven documented labels, and it is "Hispanic or Latino" exactly when the origin contains "Hispanic" and not "Not" |
| RaceEthnicity.ClassifyIsFirstMatch | src/analysis.py:190-204 | for non-Hispanic rows the decision list equals the first rule that fires in the ordered rule table, with Other/Unknown when none fires |
| RaceEthnicity.NotHispanicRaceDecides | src/analysis.py:187-204 | when the origin contains "Not", the race text alone decides the label |
| RaceEthnicity.CategoryConditions | src/analysis.py:190-204 | each non-Hispanic label is given by its exact condition on the race text, including Asian, Hawaiian or Pacific giving Asian/PI and Indian or Alaska giving AIAN |
| RaceEthnicity.BlackBeforeWhite | src/analysis.py:187-194 | outside the Hispanic override, every race text containing both "Black" and "White" is classified Black (NH) |
| Strings.ContainsItself | src/analysis.py:187-201 | the `in` test finds every keyword in itself and finds the empty text in every text |
| Strings.ContainsWithin | src/analysis.py:187-201 | an `in` match survives any text added before or after, so a keyword is found inside a longer label such as "Black or African American" |
| RaceEthnicity.MissingFieldsAreOtherUnknown | src/analysis.py:183-184 | missing columns (empty text) and "nan" give Other/Unknown |

## Left out

- Reading the catalog from JSON in `EquityFrameworkScorer.__init__` is not modelled. The catalog is a value, and a catalog missing a pillar or a scoring-guide key (a `KeyError` in Python) cannot be represented.
- The `assessment_date` from `datetime.now()` and the report date are not modelled, because they are non-deterministic.
- All printing is left out, along with `generate_summary_report`, which only prints the outputs modelled here.
- `round(..., 1)` on the recorded pillar and overall percentages is left out: the model keeps exact percentages. Because of this, the model's priority sort and overall message work on exact values. The source sorts the rounded pillar percentages and compares the rounded overall percentage, so two pillars that differ only after the first decimal tie in the source but not in the model.
- Python float arithmetic is replaced by exact rationals.
- `load_sample_responses` is not modelled: it is fixture data whose scoring maps are not shown.
- Scoring.QuestionScore: a scoring value outside 0..5 is accepted, as in the source; the range facts are stated only for well-formed catalogs.
- File reading and writing, `json.load`/`json.dump`, `Path.glob` traversal, and the exception handling and printing in the emoji script and its `main` are not modelled. Globbing becomes an input: the paths each pattern yields, in order.
- EmojiRemoval.CleanNotebookCells: a `source` that is neither a string nor a list is not modelled. In Python it raises a `TypeError` that the whole function swallows. A notebook without `cells` is modelled as an empty cell array.
- EmojiRemoval.RemoveEmojis: lone surrogate code points (U+D800..U+DFFF), which Python strings may hold, are not representable as Dafny characters.
- Paths are modelled by their components (`Path.parts`). How `Path` splits a path string into components is not part of this model.
- In `src/analysis.py`, only `create_race_ethnicity` is modelled. The row's two columns are given as text; `str()` of a missing column is the empty string, and a pandas missing value is the text "nan". The loaders, rate calculations, disparity ratios, plotting and module-level plotting setup are not part of this model.
