# CircularOS decision core: a verified model

CircularOS reads regulatory circulars, extracts obligations with language models, and then decides everything
that matters with deterministic code: what changed between two versions of a document, whether a citation is
real, how an extraction is routed, what a change affects, and how good all of this is. This project models that
deterministic layer in Dafny and proves what it is for.

Language models, the database, PDF parsing and pattern matching are oracles here: an assessment, a similarity
score, a parsed deadline or a table of contents is an arbitrary input, and a commit is one atomic step. Python
floats are modelled as real numbers. Code that works step by step is written as methods with loops, tied to a
specification function (or, where the result depends on choices of a library, to a relation) about which the
lemmas then speak; the verification service is a class whose methods update its tables. Lemmas named `...Exactly`, and
those on records, words, scores and lists, say what a specification computes without its own functions.

## How the files fit together

- `Sorting`, `Increasing`, `GreedyPairs`, `Permutations`, `Lexicographic`, `Wording`, `Options`: shared ideas (stable
  sorting, lists of indices, greedy one-to-one choice, square assignment problems, orders on strings and paths, words
  of a text).
- `Matching`, `GreedyBaseline`: assignment with a null option, as a padded square problem, and the greedy baseline.
- `Titles`, `SemanticDiff`, `SelfMatching`, `StructuralDiff`, `Severity`, `Materiality`, `ObligationDiff`,
  `DiffPipeline`, `DiffReport`: the diff engine from section lists to change list. `FieldChanges` and `ChangeRows` say
  what it computes of the records and sections themselves.
- `Isotonic`, `IsotonicTies`, `IsotonicInputs`, `CalibrationError`: pool adjacent violators, what tied probabilities do
  to them, the calibrator on the lists it is fitted to, and the expected calibration error.
- `Impact`: the breadth-first walk behind the blast radius of a change.
- `Citations`, `CitationContext`, `Sections`: citation verification, the source shown to the model, and the offsets of
  sections, chunks and stored citations.
- `Routing`, `Batching`, `VerificationRun`, `VerificationAttempt`, `VerificationCommits`, `VerificationService`: gates
  and confidence, batches, the resumable verification run as a state machine with crashes, one call of it as a sequence
  of steps, what a call commits, and the service as a class.
- `EvaluationMatching`, `Metrics`, `Bootstrap`: both evaluation matchers, their scores, and the decomposition that the
  bootstrap resamples.

## What turned out to be so

- The padded assignment problem is right for tables of every size. What it needs is only that two nulls cost no
  more than one forbidden cell, 2(1 - tau) <= 1e6; `NullTooDear` shows that beyond this bound every cheapest
  solution of one 2 x 2 table decodes to a matching that is not optimal. With 0 <= tau <= 1 the bound holds.
- The isotonic fit is the least-squares one over the sorted points, but applying it looks values up by probability, so
  tied probabilities that are fitted apart are answered alike, and `TiesCanSplit` shows the loss. Two neighbours are
  fitted alike exactly when some run of labels ending at the first averages no less than some run starting at the
  second (`FittedTogether`). That condition on the labels, over all tied neighbours, is exactly when applying agrees
  with the fit (`ApplyAgrees`) and exactly when the applied calibrator is a best function of the probability
  (`AppliedOptimal`).
- Persisting an outcome twice for one obligation breaks the run's accounts, and only that does (`PersistAccounted`).
  The workflow never does it in any history of starts, failures, crashes and resumptions.
- A finished attempt seals its run exactly when everything the run completed is still active (`FinishSeals`): a run
  that completed an obligation which has since been deleted is refused the seal, whatever else it does, as long as
  the registry lacks that obligation.
- What comparing a document with itself reports depends on how the assignment solver breaks ties, which the engine
  leaves to the library. That the result is a cheapest assignment does not exclude a report: two obligations of one
  section that read the same but differ in a field may be matched crosswise, as in `CrossedWitness`, and
  `SelfDiffSilent` says that this is the only way. With ties going to the smallest indices, as in the solver given
  here, it reports nothing (`SelfDiffFirst`).
- Replaying routes from stored signals differs from the routes given in three ways: an obligation without citations was
  rejected but is left out, a recorded null self-confidence raises, and a missing one is replayed as 0.5 although the
  verification used the obligation's own confidence. The last is harmless where that confidence is 0.5 or where a
  failed citation or a signal short of entailment decides the route anyway; `ReplayExactly` is the whole condition.

## Model

| member | source | states |
|---|---|---|
| Matching.AssignmentCost | packages/diff_engine/matching.py:114-124 | the objective: matched cells plus one null cost for each item left unmatched |
| Matching.TotalIsSaving | packages/diff_engine/matching.py:114-124 | the objective of any valid assignment is the all-unmatched cost less what its pairs save |
| Matching.Pad | packages/diff_engine/matching.py:51-69 | the array built cell by cell is the padded table: thresholded cells, two diagonals of nulls, a free block |
| Matching.ReadPairs | packages/diff_engine/matching.py:73-82 | the decoded pairs, their similarities, and everything else unmatched, each once and in order |
| Matching.EncodeCost | packages/diff_engine/matching.py:39-49 | every one-to-one matching over allowed cells has a permutation of the padded table that costs exactly its objective |
| Matching.DecodedTotal | packages/diff_engine/matching.py:73-82 | no permutation of the padded table costs less than the matching it decodes to |
| Matching.DecodedValid | packages/diff_engine/matching.py:73-82 | every permutation decodes to a one-to-one matching over cells below 1 - tau that partitions both sides |
| Matching.ReductionOptimal | packages/diff_engine/matching.py:39-82 | every cheapest permutation decodes to a matching that no valid matching beats, for tables of any size |
| Matching.NullTooDear | packages/diff_engine/matching.py:36-49 | the bound on the null cost is needed: beyond it one table is decoded wrongly by every cheapest permutation |
| Matching.HungarianMatching | packages/diff_engine/matching.py:39-82 | the matcher returns a valid matching always, an optimal one unless the null cost is over half the forbidden cost, and the one its solver's tie-break selects |
| Permutations.LinearSumAssignment | packages/diff_engine/matching.py:71 | a stand-in for the library solver: a permutation of least cost, and of those the one with the smallest columns first |
| GreedyBaseline.GreedyMatching | packages/diff_engine/matching.py:85-111 | the loop with its early exit takes the greedy choice over the cells below the null cost in stable cost order |
| GreedyBaseline.GreedyValid | packages/diff_engine/matching.py:85-111 | the baseline's result is a valid matching |
| GreedyBaseline.GreedyMaximal | packages/diff_engine/matching.py:101-109 | no allowed cell can be added to it, and what stands in the way of one costs no more |
| GreedyBaseline.GreedyHalfSaving | packages/diff_engine/matching.py:85-124 | it saves at least half of what any valid matching saves against leaving all unmatched |
| GreedyBaseline.HungarianBeatsGreedy | packages/diff_engine/matching.py:114-124 | an optimal matching never costs more than the baseline's, and saves at most twice as much |
| GreedyPairs.GreedyStable | packages/evaluation/matching.py:177-190 | taking candidates in order leaves out only those that share a side with an earlier chosen one |
| GreedyPairs.StableUnique | packages/evaluation/matching.py:177-190 | only one choice has that property |
| Titles.AsciiProper | packages/diff_engine/normalize.py:15-24 | plain text meets what is assumed of the character tables |
| Titles.CanonicalFromNormalized | packages/diff_engine/normalize.py:27-53 | the canonical title is the normalised title without its footnote number and outer punctuation |
| Titles.AlignedTitlesAgree | packages/diff_engine/normalize.py:27-53 | titles that align never differ canonically |
| Titles.CanonicalIsNormal | packages/policy_engine/changes.py:110-113 | comparing canonical titles as obligation text compares them as they are |
| Wording.ExpandExactly | packages/policy_engine/citations.py:53-55 | expanding a text expands its characters one after another |
| Wording.SplitExactly | packages/policy_engine/citations.py:56-67 | the words of a text: a separator adds none, and a word after a separator, or alone, is one more |
| Titles.NormalizeExactly | packages/diff_engine/normalize.py:31-36 | a title is aligned by its words: quotes and dashes straightened, case folded, one space wherever white space stands between words |
| Titles.CanonicalExactly | packages/diff_engine/normalize.py:39-53 | the canonical title is the normalised one up to its trailing digits, without punctuation and spaces at its ends, and nothing else |
| Titles.NormTextExactly | packages/policy_engine/changes.py:110-113 | fields are compared by their words, case folded, one space between each two |
| SemanticDiff.ComparedParts | packages/diff_engine/semantic_diff.py:25-36 | what is compared: the maximal runs of letters and digits of the normalised text, and its three-character stretches |
| SemanticDiff.SimilarityRange | packages/diff_engine/semantic_diff.py:39-53 | lexical similarity lies in [0, 1], is symmetric, and is 1 exactly on texts with the same words and trigrams |
| SemanticDiff.BuildCostMatrix | packages/diff_engine/semantic_diff.py:56-63 | every cell is what the pair's similarity lacks of 1 |
| SemanticDiff.MatchTexts | packages/diff_engine/semantic_diff.py:66-75 | a best matching of the two lists at the threshold |
| SemanticDiff.AssignedPartition | packages/diff_engine/matching.py:73-82 | a matching of texts pairs indices above the threshold one-to-one and lists every other index once, in order |
| SelfMatching.SelfAssigned | packages/diff_engine/matching.py:39-82 | a list matched with itself pairs every item, and only with texts it cannot be told from |
| SelfMatching.CrossedAssigned | packages/diff_engine/matching.py:39-82 | any two texts that cannot be told apart are crossed over by some best matching of the list with itself |
| SelfMatching.SelfFirst | packages/diff_engine/matching.py:39-82 | with ties going to the smallest indices each item of a list is matched with itself |
| StructuralDiff.GroupByTitle | packages/diff_engine/structural_diff.py:28-30 | each title's group lists the new sections with it, in order |
| StructuralDiff.Nearest | packages/diff_engine/structural_diff.py:40 | the first candidate at the least distance in number |
| StructuralDiff.AlignSections | packages/diff_engine/structural_diff.py:25-46 | the loop computes the alignment with its relations, and both lists of leftovers |
| StructuralDiff.AlignedPairs | packages/diff_engine/structural_diff.py:32-46 | aligned pairs share a normalised title and use no section twice |
| StructuralDiff.AlignedMaximal | packages/diff_engine/structural_diff.py:35-38 | no title is left over on both sides |
| StructuralDiff.SameTitlesAlign | packages/diff_engine/structural_diff.py:1-10 | with the same titles on both sides, counted with repetition, everything aligns under any order and numbering |
| StructuralDiff.SelfAligned | packages/diff_engine/structural_diff.py:39-43 | a list with distinct numbers aligns with itself section by section, repeated titles included |
| StructuralDiff.AlignedExactly | packages/diff_engine/structural_diff.py:32-46 | each old section in turn gets, of the new ones of its title not yet taken, one whose number is nearest, the first of those; none only when there is none |
| Materiality.DiffFields | packages/policy_engine/changes.py:122-130 | exactly the fields whose normalised values differ, in the source's order |
| Materiality.AssessMateriality | packages/policy_engine/changes.py:262-471 | the verdict of the rule table, with the reasons in the order the rules fire |
| Materiality.ApplyRules | packages/policy_engine/changes.py:317-441 | the rule branches add exactly the reasons the specification lists |
| Materiality.JoinLevels | packages/policy_engine/changes.py:77-81 | the join of the fired severities |
| Materiality.LevelIsWorst | packages/policy_engine/changes.py:305-465 | the level of a modification reaches a severity exactly when some changed field's rule does |
| Materiality.MoreChangesNoLower | packages/policy_engine/changes.py:305-465 | enlarging the set of changed fields never lowers the level |
| Materiality.NoneExactly | packages/policy_engine/changes.py:155-166 | NONE exactly when no normalised field differs |
| Materiality.HighExactly | packages/policy_engine/changes.py:317-402 | HIGH exactly when a changed deadline shrinks, the actor set grows, or evidence or a penalty appears |
| Materiality.LowExactly | packages/policy_engine/changes.py:443-465 | LOW exactly when all that differs is wording, a deadline of the same length or a frequency that drops |
| FieldChanges.DiffersExactly | packages/policy_engine/changes.py:110-130 | for each of the eleven fields, when it differs, on the words of the two records |
| FieldChanges.ChangedFieldsOrdered | packages/policy_engine/changes.py:97-130 | differing fields are listed in the order of the two field lists |
| FieldChanges.NoneOnRecord | packages/policy_engine/changes.py:155-166 | NONE exactly when all eleven fields of the two records read the same |
| FieldChanges.HighOnRecord | packages/policy_engine/changes.py:317-402 | HIGH exactly when a deadline that reads differently is shorter, someone more is bound, or evidence or a penalty appears, on the records |
| FieldChanges.NumberRules | packages/policy_engine/changes.py:317-402 | which rule a deadline and a frequency set off, on the numbers read from them |
| FieldChanges.TextRules | packages/policy_engine/changes.py:317-402 | which rule actors, evidence and penalties set off, on who is bound and what appears |
| FieldChanges.WordingExactly | packages/policy_engine/changes.py:252-262 | a change of wording is a clean-up exactly when a discontinued term was there and is gone |
| FieldChanges.ReasonsExactly | packages/policy_engine/changes.py:305-465 | the reasons of a modification: which rule with which fields, in the order of the rules, wording only when nothing else changed |
| FieldChanges.WholeExactly | packages/policy_engine/changes.py:279-303 | a created obligation is HIGH exactly on a high or critical risk, else MEDIUM; a removed one is MEDIUM |
| ObligationDiff.CompareObligations | packages/diff_engine/obligation_diff.py:95-139 | the comparison of two obligation lists under some best matching, one-sided and empty lists included |
| ObligationDiff.CollectDeltas | packages/diff_engine/obligation_diff.py:119-128 | the union of differing fields, the highest level and all reasons over the matched pairs |
| ObligationDiff.DeltaFields | packages/diff_engine/obligation_diff.py:125-128 | a field is a delta exactly when some matched pair differs in it |
| ObligationDiff.DeltaLevel | packages/diff_engine/obligation_diff.py:114-117 | the comparison's level is that of its most material pair |
| ObligationDiff.ComparisonCounts | packages/diff_engine/obligation_diff.py:69-88 | matched with removed and with created make up both sides; a trusted delta leaves at most a fifth of either unmatched |
| ObligationDiff.SelfComparison | packages/diff_engine/obligation_diff.py:95-139 | an unchanged list shows no trusted delta under every best matching exactly when no two look-alikes differ |
| ObligationDiff.SelfComparisonFirst | packages/diff_engine/obligation_diff.py:95-139 | with ties going to the smallest indices an unchanged list shows no delta at all |
| ObligationDiff.CrossedWitness | packages/diff_engine/obligation_diff.py:95-139 | a list of two look-alikes with a best matching that shows a trusted delta, which the tie-break does not select |
| ObligationDiff.DiffPair | packages/diff_engine/obligation_diff.py:200-260 | the row, or none, for a matched pair under a comparison the engine may make |
| ObligationDiff.TitleDecides | packages/diff_engine/obligation_diff.py:153-161 | the section comparison is substantive exactly when the canonical titles differ, and then only in wording |
| ObligationDiff.PairReported | packages/diff_engine/obligation_diff.py:215-246 | when a pair is reported, on its titles, numbers and cleaned bodies, with which fields, numbers and similarity and at which level |
| ObligationDiff.StableRenumberingSilent | packages/diff_engine/obligation_diff.py:44-48 | a renumbered same-title pair with bodies at least 0.85 alike is never reported, whatever its obligations |
| ChangeRows.ObligationTextExactly | packages/diff_engine/obligation_diff.py:91-92 | obligations are paired by wording, action and object, without outer white space |
| ChangeRows.TrustedExactly | packages/diff_engine/obligation_diff.py:69-88 | a delta is trusted exactly when at least four fifths of either side found a partner |
| ChangeRows.DeltaReasons | packages/diff_engine/obligation_diff.py:114-128 | the reasons of a comparison are those that the changed fields of its pairs give |
| ChangeRows.CreatedExactly | packages/diff_engine/obligation_diff.py:263-267 | the row of a created section: title, number, HIGH when its title speaks of a risk and else MEDIUM |
| ChangeRows.RemovedExactly | packages/diff_engine/obligation_diff.py:270-274 | the row of a removed section: title, number, always MEDIUM |
| DiffPipeline.PipelinePartition | packages/diff_engine/engine.py:55-71 | alignment, residual matching and index remapping partition both documents: one-to-one pairs, and every other section once |
| DiffPipeline.LeftoversCompose | packages/diff_engine/engine.py:65-68 | indices into the leftovers of one stage, mapped back, are the leftovers of both stages |
| DiffPipeline.PipelineCounts | packages/diff_engine/engine.py:55-71 | matched and removed make up the old document, matched and created the new one |
| ChangeRows.PairsExactly | packages/diff_engine/engine.py:55-71 | the pairs looked at: aligned ones as fully alike, then the matcher's with its similarities, on the sections its indices stand for |
| DiffReport.MatchSections | packages/diff_engine/engine.py:55-71 | the two matching stages, the one-sided case included, with the residual matching that the tie-break selects |
| DiffReport.CollectModified | packages/diff_engine/engine.py:76-87 | the rows of the matched pairs in order, and how many were suppressed |
| DiffReport.RunDiffPipeline | packages/diff_engine/engine.py:55-107 | from section lists: the sorted change list and its summary, for a trace of matching choices that are best and that the tie-break selects |
| DiffReport.RowOrder | packages/diff_engine/engine.py:93-97 | the sort key is a total preorder |
| ChangeRows.ChangesOrdered | packages/diff_engine/engine.py:93-97 | rows to confirm first; among either, created, modified, removed; of one kind, by the text of section sign and number |
| ChangeRows.RefExactly | packages/diff_engine/engine.py:93-97 | rows of one kind are ordered by the section sign and the decimal digits of the new number, or the old one of a removal |
| ChangeRows.DecimalExactly | packages/diff_engine/obligation_diff.py:166-167 | the digits of a number are its decimal ones, without leading zeros |
| ChangeRows.ChangesExactly | packages/diff_engine/engine.py:76-91 | the change list holds the row of each reported pair and of every created and removed section, and no other |
| ChangeRows.TalliesExactly | packages/diff_engine/engine.py:99-105 | the summary counts the rows of each kind and those to confirm |
| DiffReport.PipelineConserves | packages/diff_engine/engine.py:76-105 | modified and suppressed are the matched pairs; the counts add up to the change list and to both documents |
| DiffReport.MaterialFirst | packages/diff_engine/engine.py:93-105 | the rows to confirm come first and `material` is their number |
| DiffReport.RenumberingInvisible | packages/diff_engine/engine.py:55-91 | same titles, any order and numbers, no obligation maps: nothing is reported and every pair is suppressed |
| DiffReport.OnlyTrustedRows | packages/diff_engine/engine.py:73-91 | with obligation maps only trusted deltas of pairs that are not stably renumbered are reported |
| DiffReport.SelfDiffSilent | packages/diff_engine/engine.py:35-115 | a document against itself reports nothing under every choice of best matchings exactly when no section holds look-alikes that differ |
| DiffReport.SelfDiffFirst | packages/diff_engine/engine.py:35-115 | with ties going to the smallest indices a document against itself reports nothing, look-alikes or not |
| Isotonic.FitIsotonic | packages/evaluation/calibration.py:212-237 | the stack loop computes the pooled blocks of the sorted points, or a value error on empty or unequal inputs |
| Isotonic.PoolTiles | packages/evaluation/calibration.py:218-233 | the blocks cut the points into consecutive runs with non-decreasing means |
| Isotonic.BlocksConserve | packages/evaluation/calibration.py:226-233 | block counts and sums add up to the input's |
| Isotonic.PooledFitOptimal | packages/evaluation/calibration.py:212-237 | the block-constant fit has the least squared error of all non-decreasing fits, by at least their distance |
| Isotonic.ApplyIsotonic | packages/evaluation/calibration.py:240-254 | each probability gets the value of the first block that reaches it, or of the last |
| Isotonic.ApplyMonotone | packages/evaluation/calibration.py:240-254 | a higher probability never calibrates lower |
| Isotonic.ApplyInRange | packages/evaluation/calibration.py:240-254 | with labels in [0, 1] every calibrated value is in [0, 1] |
| IsotonicTies.FitBalanced | packages/evaluation/calibration.py:218-233 | the fit balances the labels: residuals add up to nothing, prefixes lean up, and they cancel wherever the fit rises |
| IsotonicTies.FittedTogether | packages/evaluation/calibration.py:218-233 | two neighbours are fitted alike exactly when a run of labels ending at the first averages no less than one starting at the second |
| IsotonicTies.ApplyAgrees | packages/evaluation/calibration.py:240-254 | applying the fit gives the fitted values back exactly when all tied neighbours meet that condition on the labels |
| IsotonicTies.TiesCanSplit | packages/evaluation/calibration.py:217-225 | two tied points with labels 0 and 1 are fitted apart and applied suboptimally |
| IsotonicTies.AppliedOptimal | packages/evaluation/calibration.py:212-254 | the applied calibrator has the least squared error of all non-decreasing functions of the probability exactly under that condition |
| IsotonicInputs.PairsKept | packages/evaluation/calibration.py:216 | the points fitted are the caller's pairs, each as often as it is given, by rising probability |
| IsotonicInputs.CalibratorOptimal | packages/evaluation/calibration.py:212-254 | on the caller's two lists, looking up has the least squared error of all non-decreasing functions of the probability exactly under that condition |
| CalibrationError.ExpectedCalibrationError | packages/evaluation/calibration.py:257-272 | the binned error, with its value errors |
| CalibrationError.BinExactly | packages/evaluation/calibration.py:266 | the bin of a probability is the one between whose edges it lies, the last taking in its upper edge |
| CalibrationError.ReliabilityDiagramData | packages/evaluation/calibration.py:283-304 | one row for each bin that is not empty, in order |
| CalibrationError.RowsInBins | packages/evaluation/calibration.py:290-303 | each row's mean confidence lies between its bin's edges, and the rows go up without overlap |
| CalibrationError.RowsCountEverything | packages/evaluation/calibration.py:290-303 | the row counts add up to the number of predictions |
| CalibrationError.ErrorFromDiagram | packages/evaluation/calibration.py:266-271 | the error is the count-weighted sum of the rows' gaps |
| CalibrationError.ErrorBounds | packages/evaluation/calibration.py:257-272 | the error lies between the gap of the means and the mean gap, which is at most 1 |
| CalibrationError.PerfectlyCalibrated | packages/evaluation/calibration.py:257-272 | the error is zero exactly when every bin balances |
| CalibrationError.ErrorOfLists | packages/evaluation/calibration.py:257-272 | on the caller's two lists, the error is at least the gap between the means and at most the mean gap |
| Impact.BuildAdjacency | packages/policy_engine/impact.py:67-72 | sorted neighbour lists of the links whose two ends exist |
| Impact.Walk | packages/policy_engine/impact.py:74-85 | the walk terminates and records, for exactly the reachable nodes other than the root, the least path in length-then-name order |
| Impact.WalkResolves | packages/policy_engine/impact.py:74-85 | settled paths are least among all paths to their ends |
| Impact.LeastSimple | packages/policy_engine/impact.py:74-85 | a recorded path visits no node twice and no path to its end is shorter |
| Impact.ResolvesUnique | packages/policy_engine/impact.py:52-85 | the recorded paths do not depend on the order or repetition of edges |
| Impact.ImpactUnique | packages/policy_engine/impact.py:52-108 | the whole impact set depends only on the node table and on which links there are |
| Impact.ResolveBlastRadius | packages/policy_engine/impact.py:52-108 | per kind, the reachable nodes in name order, and the named paths; nothing for an unknown root |
| Impact.TableExactly | packages/policy_engine/impact.py:54 | the node table knows exactly the ids of the list, each with its last node |
| Lexicographic.StringExactly | packages/policy_engine/impact.py:71-94 | names are compared at the first character that differs, by its code, a prefix first |
| Impact.BlastRadius | packages/policy_engine/impact.py:52-108 | on the lists of nodes and edges: the ids listed under each kind, and a shortest chain of edges, the first by name, for everything a chain reaches |
| Citations.NormalizeWithOffsets | packages/policy_engine/citations.py:47-69 | the nested loops compute the normalised text and its offset map |
| Citations.NormalizeExactly | packages/policy_engine/citations.py:47-69 | normalised text is every character of the expanded text that is not a separator, in order, with one space exactly where separators stand between two of them |
| Citations.ScanShaped | packages/policy_engine/citations.py:47-69 | offsets match the text in number, do not decrease and lie in the source; no separator stands at either end |
| Citations.SpanWitness | packages/policy_engine/citations.py:84-102 | a span found is not empty, in bounds, and normalises to text that contains the normalised quote |
| Citations.SpanEqualsQuote | packages/policy_engine/citations.py:84-102 | it equals the normalised quote when no character expands to more than one |
| Citations.AlteredCopyFound | packages/policy_engine/citations.py:84-102 | a quote that normalises like some stretch of the source is found |
| Citations.VerifyCitation | packages/policy_engine/citations.py:105-199 | on the texts and their words: exactly when each verdict is given, a fuzzy one whenever a window of words reaches 0.95, with the best score; the fast search agrees, span included |
| Citations.FuzzyVerdict | packages/policy_engine/citations.py:150-199 | the window search: best score over all windows, first span on a tie, in bounds |
| Citations.SearchExactly | packages/policy_engine/citations.py:150-175 | the windows tried are the runs of words as long as the quote or one word shorter or longer, scored as such |
| CitationContext.MergeWindows | packages/ai/workflows/verification.py:289-294 | the merging loop |
| CitationContext.JoinedExactly | packages/ai/workflows/verification.py:295 | pieces are joined with an ellipsis on a line of its own between each two |
| CitationContext.Context | packages/ai/workflows/verification.py:270-295 | the joined pieces, or the first 500 characters when no quote is found |
| CitationContext.MergeSeparated | packages/ai/workflows/verification.py:288-294 | merged windows are in order with a gap between each two |
| CitationContext.MergeCovers | packages/ai/workflows/verification.py:288-294 | merging neither loses nor adds a character |
| CitationContext.QuotesShown | packages/ai/workflows/verification.py:270-295 | every quote that is found stands whole in the context, in one piece, and the pieces show exactly the characters within the radius of a found quote |
| Sections.LocateBodySpans | packages/diff_engine/sections.py:75-139 | the loops compute the chosen headings and the spans between them |
| Sections.ChooseBest | packages/diff_engine/sections.py:104-130 | no heading option of an entry is preferred to the chosen one |
| Sections.SpansTile | packages/diff_engine/sections.py:104-136 | the spans are disjoint and tile the text from the first chosen heading to the end; each runs from the heading chosen for an entry, and every entry with a heading has one |
| Sections.RegionExactly | packages/diff_engine/sections.py:89-99 | the body begins at the last heading of the smallest number ahead of its first sub-clause, or at the start of the text |
| Sections.SpansInBody | packages/diff_engine/sections.py:89-139 | no span starts before the body begins |
| Sections.ChosenExactly | packages/diff_engine/sections.py:106-130 | the chosen heading is not behind any other of its number in prefix agreement, then overlap, then position |
| Sections.NotChosen | packages/diff_engine/sections.py:124-130 | an entry is not located exactly when all headings of its number lie before the body |
| Sections.ExtractSections | packages/diff_engine/sections.py:167-190 | one section for each entry of the table of contents, by number and with its title, each body the cut span of its heading |
| Sections.CutSpans | scripts/extract_obligations_full.py:128-144 | the chunk loop terminates with the specified cuts |
| Sections.ChunkSection | scripts/extract_obligations_full.py:128-156 | the chunks, or a value error for a limit that is not positive |
| Sections.ChunkSpansTile | scripts/extract_obligations_full.py:132-144 | chunk spans follow on from each other from the start to the end of the body |
| Sections.CutsExactly | scripts/extract_obligations_full.py:134-144 | every chunk but the last ends after the last newline of its second half, or at the limit when there is none |
| Sections.ChunksLossless | scripts/extract_obligations_full.py:128-156 | the chunks of a section concatenate to its body |
| Sections.ChunkSizes | scripts/extract_obligations_full.py:132-144 | a chunk has at most the limit plus one characters, the one only for a newline; all but the last are over half full |
| Sections.ChunkInDocument | scripts/extract_obligations_full.py:145-156 | slicing the document at a chunk's offsets gives the chunk |
| Sections.CitationSlice | scripts/extract_obligations_full.py:682-702 | offsets are stored exactly when the chunk is located and holds the quote, and slicing there gives the quote |
| Routing.RouteExactly | packages/ai/workflows/verification.py:162-228 | when an obligation registers by itself and when it is rejected: citations, raw label, 0.65 and the high threshold |
| Routing.VerifyExactly | packages/ai/workflows/verification.py:162-228 | when a verification is refused, and else its signal, score, band and route, on the least citation score, the weights and the self-confidence themselves |
| Routing.MinScoreExactly | packages/ai/workflows/verification.py:171 | the citation score is the least one, and 0 without citations |
| Routing.BetterNeverDemotes | packages/policy_engine/confidence.py:92-146 | with weights signed as the defaults are, better signals never lead to a worse route |
| Routing.DefaultsNeverDemote | packages/policy_engine/confidence.py:47-54 | under the default parameters, for scores in [0, 1], confidence is always given and better signals never lead to a worse route |
| Routing.DefaultLogit | packages/policy_engine/confidence.py:35-54 | what the default parameters weigh, number by number, and the two thresholds |
| Routing.CalibratedRoutingSplit | packages/evaluation/runner.py:580-629 | the replay loop computes the split, or raises |
| Routing.SplitComplete | packages/evaluation/runner.py:623-626 | the counts and the skipped obligations add up |
| Routing.SplitExactly | packages/evaluation/runner.py:585-626 | the split raises exactly when some obligation does, and else each counter is the number of obligations whose replay gives that route |
| Routing.ReplayedExactly | packages/evaluation/runner.py:585-622 | when a stored obligation is left out or raises, and else its score and route, on its stored numbers |
| Routing.ReplaySkips | packages/evaluation/runner.py:585-595 | an obligation without a stored verification or signal is left out |
| Routing.ReplayAgrees | packages/evaluation/runner.py:585-622 | replay gives the route that was given where it sees the same self-confidence; what happens without citations and on a null |
| Routing.ReplayExactly | packages/evaluation/runner.py:585-622 | replay agrees under all parameters exactly when there is a citation, no null is recorded, and the self-confidence is the same or a failed citation or a signal short of entailment decides |
| Batching.SplitVerificationBatches | packages/ai/workflows/verification.py:316-338 | the loop computes the greedy split |
| Batching.SplitWhole | packages/ai/workflows/verification.py:316-338 | the batches concatenate to the input |
| Batching.SplitLegal | packages/ai/workflows/verification.py:327-330 | every batch is a single candidate or within both limits |
| Batching.SplitFewest | packages/ai/workflows/verification.py:316-338 | no order-preserving split into legal batches uses fewer |
| VerificationRun.ResumeConsistent | apps/api/services/verification_service.py:87-135 | creating or resuming a run keeps all accounts |
| VerificationRun.ResumeExactly | apps/api/services/verification_service.py:87-135 | the last run that is not completed is resumed if its provenance is the same; else a new run without any work is added |
| VerificationRun.PendingExactly | apps/api/services/verification_service.py:429-447 | what is pending are the candidates not completed, in order |
| VerificationRun.PersistAccounted | apps/api/services/verification_service.py:231-259 | persisting keeps a run's accounts exactly when the obligation was not yet completed under it |
| VerificationRun.StepSound | apps/api/services/verification_service.py:379-525 | no start, verification, commit, failure, crash, finish or change of the registry breaks the accounts |
| VerificationRun.StepsSound | apps/api/services/verification_service.py:379-525 | no sequence of steps leads from a sound state to an unsound one |
| VerificationRun.HistorySound | apps/api/services/verification_service.py:351-376 | after every history, route counts, completed and validated obligations agree and tokens are those of the invocations |
| VerificationRun.SealExact | apps/api/services/verification_service.py:444-522 | a run may be sealed exactly when it completed the active obligations; its counts then add up to their number |
| VerificationRun.SealedOnlyComplete | apps/api/services/verification_service.py:444-522 | a run becomes sealed only by finishing with active, completed and validated obligations identical |
| VerificationRun.SealedStable | apps/api/services/verification_service.py:87-135 | no step changes a sealed run |
| VerificationRun.SealedForever | apps/api/services/verification_service.py:87-135 | in every history a sealed run stays as it was |
| VerificationRun.FinishSeals | apps/api/services/verification_service.py:444-522 | a finished attempt seals its run exactly when all it completed is still active |
| VerificationCommits.AttemptRecords | apps/api/services/verification_service.py:447-473 | a call records, for every planned batch before the first one the provider fails, each obligation with the route it was given, a validation, a review task unless it registered, and one invocation; and nothing else |
| VerificationService.Database.CreateOrResumeRun | apps/api/services/verification_service.py:87-135 | resumes the unsealed run of the same provenance or starts one |
| VerificationService.Database.WriteRows | apps/api/services/verification_service.py:171-259 | the validation and invocation rows, the status and the review task of one outcome |
| VerificationService.Database.UpdateRun | apps/api/services/verification_service.py:351-376 | checkpoint, tokens and route counters of one outcome |
| VerificationService.Database.PersistOutcome | apps/api/services/verification_service.py:138-376 | one outcome, committed as the specification's step |
| VerificationService.Database.PauseRun | apps/api/services/verification_service.py:460-473 | a provider error marks the run as paused and counts the failure |
| VerificationService.Database.SealRun | apps/api/services/verification_service.py:475-522 | seals exactly when nothing differs |
| VerificationService.Database.PersistBatch | apps/api/services/verification_service.py:451-457 | the outcomes of a batch are committed one at a time, each a step of the protocol |
| VerificationService.Database.RunBatches | apps/api/services/verification_service.py:447-473 | batches in turn, as steps of the protocol, until all are done or the provider fails one; then the run is paused with its work kept |
| VerificationService.Database.Finish | apps/api/services/verification_service.py:475-566 | the closing check and the summary read off the run |
| VerificationService.Database.RunDocumentVerification | apps/api/services/verification_service.py:379-566 | the whole call is a sequence of protocol steps that records exactly the provider's answers: when the provider fails, nothing completed is lost and the same provenance resumes the run; otherwise it is sealed, its counts covering the document, or refused |
| EvaluationMatching.MatchObligations | packages/evaluation/matching.py:161-203 | the loops compute the greedy matching; on the gate's numbers, every eligible pair left out shares a side with a pair ahead of it by score triple and then indices; pairs by gold item, and exactly the rest left over |
| EvaluationMatching.MatchedStable | packages/evaluation/matching.py:177-190 | one-to-one, and every rejected eligible pair shares a side with an earlier chosen one |
| EvaluationMatching.MatchedUnique | packages/evaluation/matching.py:161-203 | the only matching with that property |
| EvaluationMatching.MatchedHalf | packages/evaluation/matching.py:161-203 | at least half as many pairs as any one-to-one eligible matching |
| EvaluationMatching.OrderIndependent | packages/evaluation/matching.py:161-203 | with distinct score triples, reordering the inputs only permutes the result |
| EvaluationMatching.MatchObligationsCoverage | packages/evaluation/matching.py:225-289 | covered and uncovered gold, absorbed predictions, what each covered item absorbs in rank order, and primary pairs |
| EvaluationMatching.HitsPrimary | packages/evaluation/matching.py:252-273 | the first hit of a covered gold item is its best eligible prediction |
| EvaluationMatching.CoverageByScores | packages/evaluation/matching.py:252-273 | on the gate's numbers, the primary pair of a covered item is ahead of every pair for it, and what it absorbs is listed each ahead of the next |
| EvaluationMatching.CoverageDominates | packages/evaluation/matching.py:161-289 | coverage loses no true positive and adds no false positive or false negative |
| Metrics.F1Closed | packages/evaluation/metrics.py:39-58 | F1 in closed form, the zero denominators included |
| Metrics.SharesExactly | packages/evaluation/metrics.py:39-58 | precision and recall are the shares of the true positives, with the empty cases; negative counts are an error |
| Metrics.F1Monotone | packages/evaluation/metrics.py:39-58 | more true positives and fewer errors never lower F1 |
| Metrics.CoverageF1 | packages/evaluation/metrics.py:39-58 | coverage matching never scores below one-to-one matching |
| Bootstrap.BootstrapObservations | packages/evaluation/runner.py:515-550 | the contribution of each example in the order of their ids: its own hit or miss, and the unmatched predictions whose least overlapped id it is |
| Bootstrap.OverlapExactly | packages/evaluation/matching.py:124-130 | two spans overlap exactly when they share a position |
| Bootstrap.BootstrapEstimate | packages/evaluation/uncertainty.py:62-65 | the point estimate is the F1 of the summed contributions |
| Bootstrap.DecompositionConserves | packages/evaluation/runner.py:515-550 | summed over the examples, the contributions are the run's confusion counts |
| Bootstrap.ScoreRun | packages/evaluation/runner.py:942-1032 | the headline F1 and the bootstrap point estimate are equal in both matching modes |

## Left out

- Language models, prompts, providers, retries and token callbacks: an assessment is an arbitrary input.
- The database engine, sessions and migrations: a commit is one atomic step. Validation, invocation and run rows are
  modelled; workflow events, audit events and per-citation columns are not. Costs in dollars, which are
  summed like tokens, are not modelled either.
- Two workers on one verification run: the code promises nothing for it.
- Rounding: floats are reals, and similarity scores are not rounded for display. The rounded logistic function is an
  arbitrary function (monotone where a result needs it).
- The assignment solver of the numeric library: `Permutations.LinearSumAssignment` meets its contract by exhaustive
  search, which says nothing about speed. Which of several cheapest solutions the library returns is not documented;
  the stand-in takes the one with the smallest columns first.
- Unicode tables: expansion into separators and characters, case folding, white space and digits are parameters, with
  the facts used about them stated as `Proper`. The library's sequence similarity is an arbitrary score.
- Pattern matching: the table of contents, headings, sub-clauses, page-number lines, high-risk words, deadlines and
  frequencies are read by functions given as parameters.
- Display text: explanations, excerpts, descriptions, citation spans of change rows and the strings inside reasons.
  The sorted lists of changed fields in a row are sets here.
- The checks that `run_document_verification` makes before it starts (a registry from one extraction run, complete
  provenance) and the fields it writes back onto the obligations when it seals.
- VerificationService.Database.Finish: the summary's `citation_passed` and `citation_rate`, which count obligations by
  their stored citation checks, are not modelled.
- VerificationService.Database.RunDocumentVerification: starts from the active obligations and a provenance, after those
  checks, and returns the summary without the two citation figures.
- VerificationService.Database.WriteRows: one validation row stands for the four kinds the source writes per outcome.
- VerificationService.Database.UpdateRun: the dollar cost is left out.
- VerificationService.Database.PersistOutcome: citation columns, workflow and audit events and dollar costs are left
  out.
- VerificationService.Database.PauseRun: the stored error text and stage are left out.
- DiffReport.RunDiffPipeline: starts from section lists; extraction, the text pre-filter and the notes are left out.
- Impact.ResolveBlastRadius: a named path is its sequence of ids; its rendering with labels and the explanation are
  display text.
- EvaluationMatching.MatchObligationsCoverage: the granularity ratio, a rounded average of the lists' lengths, is left
  out.
- SelfMatching.CrossedAssigned: speaks of every cheapest assignment, so it says what the solver's contract allows and
  not what one solver does. SelfMatching.SelfFirst says that for ties going to the smallest indices.
- ObligationDiff.SelfComparison: the same; ObligationDiff.SelfComparisonFirst is its counterpart.
- ObligationDiff.CrossedWitness: its matching is one that the solver's contract allows, not one the library is known to
  return.
- SelfMatching.SelfFirst: holds for ties going to the smallest indices, which the library does not promise.
- ObligationDiff.SelfComparisonFirst: the same.
- DiffReport.SelfDiffFirst: the same.
- `parse_toc`, `assign_to_sections`, `text_diff` and the fallback of the similarity backend: text extraction and
  plumbing around the modelled core.
- DiffReport.SelfDiffSilent: speaks of every choice of cheapest assignments, and of sections with distinct numbers,
  which is what a table of contents keyed by number yields. DiffReport.SelfDiffFirst speaks of the tie-break.
- ChangeRows.CreatedExactly: assumes that small letters are not white space and fold to themselves.
- Citations.VerifyCitation: requires that white space expands to separators only, which holds of the tables used.
- Bootstrap.ScoreRun: requires distinct example ids, as database keys are, and spans whose start is not after their
  end.
- Routing.ReplayAgrees: a stored self-confidence that is not a number is not modelled.
- Logistic and Platt fits, the stratified split, the Brier score, the resampling loop of the bootstrap interval, field
  accuracy and grouping: numeric optimisation or simple loops.
- Named failures and usage accounting of the evaluation runner, the aggregation package, the
  supervisor, the review route, seeding scripts, downloads and the web application: simple counts, short state changes
  or input and output.
