# Verification models

Dafny models of the parts of the repository whose correctness spans several functions, with proofs
of what they promise. `dafny verify dfyconfig.toml` checks everything.

## What is modelled

- **Evaluation.** `Calibration` (binning, Brier score and expected calibration error, pooling over
  documents), `Matching` (greedy one-to-one matching of spans and of table contracts, F1) and
  `Alignment` (the conservative aligner of gold and predicted elements).
- **Text adapters.** `SourceLines`, `PlainText` and `Markdown`: how source text is cut into lines and
  blocks. The Markdown line classifiers are parameters, so the results hold for any classifiers.
- **Normalization.** `Normalizer`: the element normalizer and the independent preservation audit.
- **DOCX adapter.** `DocxTree` (the XML tree, the wrapper walk and the text-box walk), `DocxView` and
  `DocxOwnership` (the effective view as an automaton over paths, and which layer finds which nested
  table), `DocxEmissions` and `DocxBlocks` (what the recursion emits), `DocxTables` and `DocxDocument`
  (the emitter and the three layers of methods), `DocxResults` (element limit, and that the written
  elements are the emissions), `DocxPaths` (path texts), `DocxStyles` (definitions and basedOn
  inheritance, section 17.7.4.3 of ISO/IEC 29500-1) and `DocxLists` (list integrity).
- **Human review.** `ReviewRecords`, `ReviewRepository`, `ReviewWorkflow` (records, the JSONL file,
  submissions and webhooks), `ReviewRuns` and `RepositoryRuns` (what every run keeps) and `ArgillaSync`
  (pushing tasks to the remote dataset).
- **Gold datasets.** `Splits` (split validation), `Projection`, `GoldValidity` and `Compiler` (from working
  records to gold, and when validated records give valid gold), `Gold`, `GoldHashing` and
  `EvidenceOrder` (canonical payloads and hashes, and what orders reach them), `Freeze`, `FreezeResults`
  and `FreezeFailures` (release files, their verification, and when it raises) and `Publish` (the publish protocol of concurrent freezers).

`Basics` and `Sorting` hold shared vocabulary: results, lists, and stable sorting by lexicographic keys.

## Conventions

- SHA-256 of canonical JSON is taken to be injective: a hash is represented by what it digests.
- Floating-point numbers are exact reals, and integers are unbounded.
- Strings are sequences of characters compared by code point.
- Failing file operations and remote calls are parameters that say whether the call succeeds.
- Where documentation and code differ the models follow the code. Six properties one might expect do
  not hold without a condition. Each has a witness, and its exact condition except as said:
  - The pop and re-append of a section separator bypasses the element limit by one element
    (`DocxResults.BodyPassesLimitExactly`).
  - Verification of a release raises, instead of reporting an issue, when two split files carry the same
    document or when the message or path of an issue is over 4096 characters, as with a long parse error or
    huge declared counts (`Freeze.VerifyFrozenDataset`, `FreezeFailures`).
  - Records that pass validation are refused by the gold schema when some text of their document, targeted or
    not, is over 32768 characters (`GoldValidity.ValidGoldExactly`, `Compiler.LongTextIsRefused`).
  - The order of evidence inside annotations can reach the gold hash (`EvidenceOrder.EvidenceOrderExactly`,
    exact for cases in which every annotation stands alone).
  - The name of a style defined twice can depend on the order of definitions
    (`DocxStyles.NameIgnoresOrderExactly`).
  - A style can inherit number id and level from different styles (`DocxStyles.NumberAndLevelExactly`).

## Model

| member | source | states |
|---|---|---|
| Calibration.CalibrationMetrics | source_understanding/evaluation/semantic.py:1035-1082 | computes, bin by bin, the counts, means, Brier score and expected calibration error that MetricsOf defines |
| Calibration.MeasureBin | source_understanding/evaluation/semantic.py:1047-1066 | selects and sums in one loop; a bin counts exactly the observations inside its edges, the last bin including its upper edge, and its mean confidence lies between them |
| Calibration.ExactlyOneBin | source_understanding/evaluation/semantic.py:1042-1054 | every confidence in [0, 1] falls in exactly one bin |
| Calibration.BinsPartition | source_understanding/evaluation/semantic.py:1042-1066 | summing any quantity bin by bin is summing it over all observations |
| Calibration.BinCountsSumToTotal | source_understanding/evaluation/semantic.py:1042-1081 | bin counts add up to the number of observations |
| Calibration.BinsAreLegal | source_understanding/evaluation/semantic.py:1047-1066 | bin edges and means are in order and in [0, 1], and means exist exactly in non-empty bins |
| Calibration.MeanErrorSquared | source_understanding/evaluation/semantic.py:1067-1081 | the mean absolute error squared is at most the mean squared error |
| Calibration.EceBelowBrier | source_understanding/evaluation/semantic.py:1035-1082 | Brier and ECE lie in [0, 1] and ECE squared never exceeds Brier |
| Calibration.PoolingIsExact | source_understanding/evaluation/semantic.py:1327-1391 | for any non-empty list of value lists with one bin count, pooling the metrics equals measuring the concatenation, bin by bin |
| Calibration.PooledBounds | source_understanding/evaluation/semantic.py:1327-1361 | the same bounds hold after pooling, and the pooled bins add up |
| Matching.BestOverlap | source_understanding/evaluation/semantic.py:830-857 | picks a free compatible span of largest positive overlap, and none only when there is none |
| Matching.OverlapCounts | source_understanding/evaluation/semantic.py:819-861 | the counts are those of a one-to-one, maximal matching, and the leftover counts are natural numbers |
| Matching.HalfOfAnyMatching | source_understanding/evaluation/semantic.py:826-861 | a one-to-one scan that leaves nothing compatible behind has at least half the size of any one-to-one matching, whatever the scanning order |
| Matching.MatchingSize | source_understanding/evaluation/semantic.py:861 | a matching uses at most every item of either side, so no count goes negative |
| Matching.OverlapRunAtLeastHalf | source_understanding/evaluation/semantic.py:819-861 | greedy span matching reaches half of any matching of overlapping spans |
| Matching.HalfIsAttained | source_understanding/evaluation/semantic.py:819-861 | the factor one half is tight: a concrete input where greedy matches one of two |
| Matching.FirstFree | benchmarks/pdf_tables_real_v0_1/evaluate.py:277-286 | the first unused prediction that fits, or none |
| Matching.MatchStructuralContracts | benchmarks/pdf_tables_real_v0_1/evaluate.py:269-288 | first-fit matching of table contracts is one-to-one and maximal, with the counts it reports |
| Matching.FirstFitAtLeastHalf | benchmarks/pdf_tables_real_v0_1/evaluate.py:269-288 | first fit reaches half of any one-to-one matching of contracts and predictions |
| Matching.F1IsDice | source_understanding/evaluation/metrics.py:31-55 | F1 is 2tp/(2tp+fp+fn), zero on a complete miss, undefined only without any item |
| SourceLines.LinesTile | source_understanding/adapters/_text_common.py:82-89 | the source lines concatenate to the text; each is break-free content and one terminator, the last perhaps without |
| SourceLines.LinesAreUnique | source_understanding/adapters/_text_common.py:82-89 | any division of a text into such lines is the one computed |
| SourceLines.TwoPassesRewriteEachLine | source_understanding/atomic/normalizer.py:143-156 | replacing CR LF and then CR equals rewriting the terminator of each source line to LF |
| SourceLines.Idempotent | source_understanding/atomic/normalizer.py:143-156 | line-ending normalization is idempotent |
| SourceLines.ChangedExactlyByCr | source_understanding/atomic/normalizer.py:143-156 | the text changes exactly when it holds a CR, and the recorded counts are consistent |
| SourceLines.LineCountKept | source_understanding/atomic/normalizer.py:143-156 | normalization keeps the number of lines |
| Normalizer.ValidateInputs | source_understanding/atomic/normalizer.py:230-246 | which inputs are refused, and with which error |
| Normalizer.Normalize | source_understanding/atomic/normalizer.py:84-131 | one element per observation, with exactly the transformed and unknown-hint ids listed |
| Normalizer.IdsWhereDistinct | source_understanding/atomic/normalizer.py:193-228 | element ids are distinct when orders are |
| Normalizer.NormalizationIsLegal | source_understanding/atomic/normalizer.py:56-73 | the normalizer never trips its own result validator |
| Normalizer.RecordedExactlyWhenChanged | source_understanding/atomic/normalizer.py:133-170 | a transformation is recorded exactly when the text changed at that step |
| Normalizer.IndexByOrder | source_understanding/atomic/preservation.py:93-99 | the index by order and the set of repeated orders |
| Normalizer.CountersNested | source_understanding/atomic/preservation.py:110-160 | the exact count never exceeds the count of any single fact, nor that the aligned count |
| Normalizer.ExactIsAllFacts | source_understanding/atomic/preservation.py:110-160 | every element is exact exactly when each single fact is kept everywhere |
| Normalizer.EvaluatePreservation | source_understanding/atomic/preservation.py:63-190 | the audit accepts exactly the preserved outputs, and its report satisfies its own validator |
| Normalizer.AcceptsExactly | source_understanding/atomic/preservation.py:63-190 | acceptance means equal length, equal orders, no repeated order and pointwise equal source facts |
| Normalizer.NormalizeThenAudit | source_understanding/atomic/preservation.py:63-190 | the independent audit always accepts what the normalizer produced |
| Markdown.ComputeLocatedLines | source_understanding/adapters/markdown.py:421-435 | the line loop computes the located lines |
| Markdown.LocatedLinesTile | source_understanding/adapters/markdown.py:421-435 | character ranges of lines are non-empty, contiguous and cover the text; numbers count from one |
| Markdown.Scan | source_understanding/adapters/markdown.py:229-418 | the nested scanner loops terminate and yield the blocks of the grammar, rendered; the preservation error never happens |
| Markdown.ScanFence | source_understanding/adapters/markdown.py:247-293 | a fenced block ends after the first closing fence or at the end of the text |
| Markdown.ScanQuote | source_understanding/adapters/markdown.py:355-373 | a quote run takes the maximal run of quoted lines and records their depths |
| Markdown.ScanListRun | source_understanding/adapters/markdown.py:321-353 | one list run: consecutive items with their continuation lines, all in the group named by its start |
| Markdown.ScanParagraph | source_understanding/adapters/markdown.py:375-411 | a paragraph or setext heading ends where the code ends it |
| Markdown.BlocksCoverLines | source_understanding/adapters/markdown.py:229-411 | blocks are non-empty line ranges that follow on one another and cover all lines |
| Markdown.ElementsTile | source_understanding/adapters/markdown.py:190-228 | element texts concatenate to the source, character and line ranges are contiguous and non-empty, orders count up |
| Markdown.UnclosedFenceIsLast | source_understanding/adapters/markdown.py:247-293 | an unclosed fence is the last block |
| Markdown.FencesCloseFirst | source_understanding/adapters/markdown.py:252-262 | no line inside a fenced block closes it before its last line |
| Markdown.AtMostOneDiagnostic | source_understanding/adapters/markdown.py:276-291 | the unclosed-fence diagnostic is given at most once |
| Markdown.NeighboursDiffer | source_understanding/adapters/markdown.py:229-411 | two plain paragraphs never touch, nor two blank-line separators |
| Markdown.GroupsAreRuns | source_understanding/adapters/markdown.py:321-353 | two list items share a group id exactly when only list items lie between them |
| Markdown.AmbiguousLineFollowsRun | source_understanding/adapters/markdown.py:325-341 | over a whole text, a block whose first line reads both as list item and as thematic break is a list item exactly when it follows one |
| PlainText.ScanBlocks | source_understanding/adapters/plaintext.py:147-188 | the flush loop yields maximal runs of blank and non-blank lines that tile the text |
| PlainText.RunsConcatenate | source_understanding/adapters/plaintext.py:159-221 | block texts concatenate to the text |
| PlainText.RunsAreUnique | source_understanding/adapters/plaintext.py:173-188 | maximal alternating runs are unique, so any correct grouping is this one |
| DocxTree.WrappedFromApart | source_understanding/adapters/_docx_extract.py:308-331 | the wrapper walk finds no node inside another it found |
| DocxTree.BoxedAtApart | source_understanding/adapters/_docx_textbox.py:154-264 | the text-box walk finds no table inside another it found |
| DocxOwnership.WrappedIsSought | source_understanding/adapters/_docx_extract.py:308-331 | rows and cells found under wrappers are reached in the effective view (revision filter included) |
| DocxOwnership.BoxedAtIsSeen | source_understanding/adapters/_docx_textbox.py:192-264 | tables found under selected text-box branches are seen by the view |
| DocxOwnership.OwnedIsReached | source_understanding/adapters/_docx_textbox.py:76-120 | the three layers together find exactly the tables the view reaches first below a table |
| DocxOwnership.OwnedSeparate | source_understanding/adapters/_docx_fixups.py:138-197 | no nested table is found by two layers or twice by one, and their paths differ |
| DocxEmissions.TableEmitsTheSeen | source_understanding/adapters/_docx_textbox.py:76-120 | the recursion emits from a table exactly itself and the seen tables below it |
| DocxEmissions.TableEmitsOnce | source_understanding/adapters/_docx_textbox.py:76-120 | each once, under pairwise distinct paths |
| DocxEmissions.TableParents | source_understanding/adapters/_docx_textbox.py:101-119 | the parent of a nested table is its nearest enclosing table |
| DocxBlocks.BlocksAreReached | source_understanding/adapters/_docx_extract.py:55-148 | at block level the outermost tables are those the view reaches first |
| DocxBlocks.EmittedExactlyTheView | source_understanding/adapters/_docx_extract.py:55-148 | over a whole body, a table is emitted exactly when it is in the effective view |
| DocxBlocks.EmittedOnce | source_understanding/adapters/_docx_extract.py:242-306 | over a whole body no table is emitted twice and no two share a path |
| DocxBlocks.EmittedByNearestTable | source_understanding/adapters/_docx_textbox.py:101-119 | over a whole body each table is emitted by its nearest enclosing table, outermost ones by none |
| DocxPaths.RenderedIsInjective | source_understanding/adapters/_docx_extract.py:293-305 | a path is determined by its text, the segments joined with slashes |
| DocxPaths.RenderedPathsDiffer | source_understanding/adapters/_docx_extract.py:32-53 | the path texts, which group ids digest, of any two tables of a body differ |
| DocxTables.Emitter.Emit | source_understanding/adapters/_docx_common.py:98-139 | appends one element whose order is its position, unless a limit is reached |
| DocxTables.DocxAdapter.EmitEntries | source_understanding/adapters/_docx_textbox.py:88-119 | emits the tables of a list of entries in order |
| DocxTables.DocxAdapter.EmitTable | source_understanding/adapters/_docx_textbox.py:76-120 | text-box layer: the lower layers, then the embedded tables, cell by cell |
| DocxTables.DocxAdapter.EmitTableFixup | source_understanding/adapters/_docx_fixups.py:138-197 | fixup layer: the extraction layer, then the wrapped tables |
| DocxTables.DocxAdapter.EmitLayer | source_understanding/adapters/_docx_fixups.py:155-197 | the nested loops over rows and cells emit one layer |
| DocxTables.DocxAdapter.EmitTableExtract | source_understanding/adapters/_docx_extract.py:242-306 | extraction layer: the table, its rows and cells, and the direct tables of each cell |
| DocxTables.DocxAdapter.EmitRow | source_understanding/adapters/_docx_extract.py:265-300 | one row and its cells |
| DocxTables.DocxAdapter.EmitCell | source_understanding/adapters/_docx_extract.py:279-306 | one cell and its direct tables |
| DocxDocument.BodyAdapter.ReadBody | source_understanding/adapters/_docx_extract.py:32-53 | when exactly a whole body is read; the elements, and the unhandled blocks diagnosed, in order; orders are positions throughout |
| DocxDocument.BodyAdapter.EmitChildren | source_understanding/adapters/_docx_extract.py:55-148 | the blocks below a node in order |
| DocxDocument.BodyAdapter.EmitBlock | source_understanding/adapters/_docx_textbox.py:11-74 | a paragraph: the separator is popped, text-box tables emitted, the separator put back with a new order |
| DocxDocument.BodyAdapter.PopSeparator | source_understanding/adapters/_docx_textbox.py:44-57 | takes the trailing separator off exactly when the paragraph ended a section |
| DocxDocument.BodyAdapter.EmitTextboxTables | source_understanding/adapters/_docx_textbox.py:122-152 | the tables in the text boxes of a paragraph |
| DocxDocument.BodyAdapter.EmitParagraph | source_understanding/adapters/_docx_fixups.py:20-70 | a paragraph, and a section separator after it when it ends a section |
| DocxDocument.BodyAdapter.EmitBlockPreserving | source_understanding/adapters/_docx_preservation.py:23-134 | an unhandled block becomes one opaque element; a wrapper that contains an unhandled block of the same upper-cased name makes reading fail |
| DocxDocument.BodyAdapter.EmitBlockExtract | source_understanding/adapters/_docx_extract.py:55-148 | tables, separators, external chunks and wrappers; says which blocks it does not handle |
| DocxResults.BodyNearLimit | source_understanding/adapters/_docx_textbox.py:53-74 | a body read successfully exceeds the element limit by at most one, and only by a separator put back at the end |
| DocxResults.ParagraphPassesLimit | source_understanding/adapters/_docx_textbox.py:44-74 | a paragraph takes the list above the limit exactly when it ends a section, holds text-box tables, and these fill the list to the limit |
| DocxResults.BodyPassesLimitExactly | source_understanding/adapters/_docx_textbox.py:53-74 | a body passes the limit exactly when some paragraph of it does so |
| DocxResults.NothingAboveTheLimit | source_understanding/adapters/_docx_textbox.py:53-74 | such a paragraph is the last block that emits anything |
| DocxResults.BodyKeepsLimit | source_understanding/adapters/_docx_textbox.py:53-74 | without a paragraph that ends a section and holds text-box tables the limit is kept |
| DocxResults.LimitCanBeExceeded | source_understanding/adapters/_docx_textbox.py:53-74 | the excess happens: a body that is read successfully with two elements allowed and three emitted |
| DocxResults.TableListsEmissions | source_understanding/adapters/_docx_textbox.py:76-120 | the table elements written for a table are, in order, its emissions with their parents |
| DocxResults.BodyListsDocument | source_understanding/adapters/_docx_extract.py:32-53 | the table elements written for a body are, in order, the emissions of the document |
| DocxStyles.FoldStyles | source_understanding/adapters/_docx_styles.py:28-54 | folding repeated definitions fails exactly when two definitions of one id disagree in a structural field; otherwise every structural field is the common value and the name is the last non-empty one |
| DocxStyles.ConflictHasWitness | source_understanding/adapters/_docx_styles.py:104-120 | a definition conflicts with the fold exactly when it conflicts with an earlier definition |
| DocxStyles.FoldIgnoresOrder | source_understanding/adapters/_docx_styles.py:104-132 | the structural result does not depend on the order of definitions |
| DocxStyles.NameIgnoresOrderExactly | source_understanding/adapters/_docx_styles.py:121-123 | every reordering of the definitions gives the style the same name exactly when its non-empty names are all equal |
| DocxStyles.NameDependsOnOrder | source_understanding/adapters/_docx_styles.py:121-123 | it can differ: two definitions with different names |
| DocxStyles.StyleResolver.Resolve | source_understanding/adapters/_docx_styles.py:69-98 | terminates; fails exactly when the style reaches a basedOn cycle; otherwise returns what the plain chain walk finds |
| DocxStyles.StyleResolver.ResolveAll | source_understanding/adapters/_docx_styles.py:100-102 | fails exactly when some style reaches a cycle; otherwise every style is resolved |
| DocxStyles.FiniteChainHasNoCycle | source_understanding/adapters/_docx_styles.py:69-98 | a style with a finite chain reaches no cycle |
| DocxStyles.NumberAndLevelExactly | source_understanding/adapters/_docx_styles.py:84-95 | the level always comes from the first style with a number id, or the last style; the number id comes from it exactly when that number id is non-empty or no style of the chain has a non-empty one |
| DocxStyles.NumberAndLevelTogether | source_understanding/adapters/_docx_styles.py:84-95 | when number ids are non-empty, number id and level come from the same style of the chain |
| DocxStyles.EmptyNumberIdSplits | source_understanding/adapters/_docx_styles.py:89-95 | with an empty number id before a non-empty one they come from different styles |
| DocxStyles.ComesApart | source_understanding/adapters/_docx_styles.py:89-95 | they do come apart: a child with an empty number id on a numbered base |
| DocxLists.GroupTextsDiffer | source_understanding/adapters/_docx_common.py:184-185 | group ids of runs that open at different elements differ, although their parts may contain the separator |
| DocxLists.GroupTextDetermines | source_understanding/adapters/_docx_common.py:184-185 | parts without the separator are determined by the joined text as well |
| DocxLists.Emitter.NormalizeListIntegrity | source_understanding/adapters/_docx_postprocess.py:27-89 | the loop computes the regrouped elements |
| DocxLists.SharedGroups | source_understanding/adapters/_docx_postprocess.py:27-89 | two list items share a group exactly when every element between them is a valid item compatible with its predecessor in the same part and zone |
| DocxLists.OnlyGroupsChange | source_understanding/adapters/_docx_postprocess.py:80-89 | only list items and headings change, and only in the two group attributes |
| DocxLists.NormalizedIsIdempotent | source_understanding/adapters/_docx_postprocess.py:27-89 | a second pass changes nothing |
| Alignment.SourceKindOccurrences | source_understanding/evaluation/alignment.py:286-297 | each element gets its kind and the number of earlier elements with the same part, zone and kind |
| Alignment.OccurrenceIdentifies | source_understanding/evaluation/alignment.py:286-297 | part, zone, kind and occurrence identify an element |
| Alignment.FindCandidates | source_understanding/evaluation/alignment.py:191-256 | candidates computed from the precomputed table |
| Alignment.CandidatesFit | source_understanding/evaluation/alignment.py:191-256 | candidates are distinct, unmatched and fit by the reported method |
| Alignment.StrongestMethodWins | source_understanding/evaluation/alignment.py:191-256 | a weaker method is used only when every stronger one offers nothing |
| Alignment.OccurrenceIsUnambiguous | source_understanding/evaluation/alignment.py:243-254 | with a zone in the anchor, occurrence never offers two candidates |
| Alignment.EachPredictedOnce | source_understanding/evaluation/alignment.py:137-183 | every predicted id is in exactly one MATCHED or PRED_UNMATCHED record |
| Alignment.EachGoldOnce | source_understanding/evaluation/alignment.py:137-174 | every required gold id is in exactly one record, an optional one in at most one |
| Alignment.Align | source_understanding/evaluation/alignment.py:123-189 | the loop yields those records; the maps are inverse bijections and no validator trips |
| Alignment.PredictionAddsUp | source_understanding/evaluation/evaluator.py:55-73 | true positives, false positives and optional matches make up the prediction |
| ReviewRecords.ValidateReviewChain | ai_data_studio/validation/review.py:16-60 | reports exactly the broken links and a final hash mismatch; no issue exactly when the chain is linked |
| ReviewRepository.FileIsImageOfMap | ai_data_studio/repositories/jsonl.py:84-120 | the written file is a function of the record map: its id-sorted image |
| ReviewRepository.Repository.LoadIndex | ai_data_studio/repositories/jsonl.py:96-97 | loads exactly the files without duplicate ids or invalid records |
| ReviewRepository.Repository.Get | ai_data_studio/repositories/jsonl.py:48-49 | reads one record of the map |
| ReviewRepository.Repository.AtomicWrite | ai_data_studio/repositories/jsonl.py:99-131 | the file becomes the sorted image, or stays as it was |
| ReviewRepository.Repository.Save | ai_data_studio/repositories/jsonl.py:51-57 | succeeds exactly when the file loads, the identity is kept and the write succeeds; changes one record |
| ReviewRepository.Repository.SaveMany | ai_data_studio/repositories/jsonl.py:59-82 | all or nothing: when exactly it succeeds, and the overlaid map |
| ReviewWorkflow.HumanReviewWorkflow.BuildTask | ai_data_studio/review/service.py:33-47 | the exported task of a reviewable, valid record |
| ReviewWorkflow.HumanReviewWorkflow.ApplySubmission | ai_data_studio/review/service.py:49-108 | the order of checks, the stored candidate, and no change on failure; the identity check of the repository never fails |
| ReviewWorkflow.ReviewOrchestrator.ApplyResponseWebhook | ai_data_studio/review/argilla_orchestration.py:65-108 | duplicate, stale and applied deliveries; no change on failure or duplicate |
| ReviewRuns.AppendedReviewKeepsChain | ai_data_studio/validation/review.py:25-59 | the appended review leaves the chain linked exactly when it was linked before |
| ReviewRuns.AttemptIsValid | ai_data_studio/schemas/review.py:44-53 | the rules on an attempt never reject a valid submission made against the current decisions |
| ReviewRuns.StoredIsReviewed | ai_data_studio/review/service.py:81-108 | a stored record is the old one with one more hash-linked review and a new status |
| ReviewRuns.StoredReviewIsCurrent | ai_data_studio/review/service.py:59-105 | a stored review was made against the current decisions, batch and guideline; its outcome decides the status, and PASS needs settled decisions |
| ReviewRuns.IdentityAndHistory | ai_data_studio/repositories/jsonl.py:148-164 | over every run the identity of a record never changes, its reviews only grow and stay chronological |
| ReviewRuns.SettledRecordsStay | ai_data_studio/review/service.py:116-122 | over every run a draft, passed or rejected record never changes |
| ReviewRuns.ChainsStayLinked | ai_data_studio/validation/review.py:22-60 | over every run chains stay linked and end in the current decisions |
| ReviewRuns.AcceptedHashNamesSnapshot | ai_data_studio/review/argilla_orchestration.py:84-96 | a delivery is accepted only against the snapshot its task hash names |
| ReviewRuns.SnapshotNeverRecurs | ai_data_studio/review/argilla_exchange.py:104-110 | after an application the snapshot it was made against never comes back |
| ReviewRuns.AtMostOnce | ai_data_studio/review/argilla_orchestration.py:65-108 | over every run, with any duplication and reordering, no task hash is applied twice |
| ReviewRuns.RedeliveryIsHarmless | ai_data_studio/review/argilla_orchestration.py:76-96 | a later redelivery is duplicate or rejected and changes nothing |
| ReviewRuns.RedeliveryIsRecognised | ai_data_studio/review/argilla_orchestration.py:130-150 | while the record is as the application left it, a redelivery is reported duplicate |
| ReviewRuns.FailedWriteCanBeRetried | ai_data_studio/review/argilla_orchestration.py:98-108 | a delivery that failed only in the write succeeds when repeated |
| ReviewRuns.SubmissionAppliesTwice | ai_data_studio/review/service.py:49-108 | without the task hash, a submission is applied a second time exactly when it is a CONFLICT that left the decisions as they were |
| RepositoryRuns.SavedIsOverlay | ai_data_studio/repositories/jsonl.py:59-82 | a successful save of several records leaves exactly the overlaid map |
| RepositoryRuns.SavedOne | ai_data_studio/repositories/jsonl.py:51-57 | saving one record is saving a list of one |
| RepositoryRuns.IdentitiesNeverChange | ai_data_studio/repositories/jsonl.py:148-164 | over every run that mixes deliveries, submissions and saves no record disappears and no identity changes |
| ArgillaSync.ArgillaReviewRemote.CheckRemoteIds | ai_data_studio/review/argilla_remote.py:160-168 | accepts exactly non-blank, distinct remote ids |
| ArgillaSync.ArgillaReviewRemote.SyncTasks | ai_data_studio/review/argilla_remote.py:147-215 | when exactly a sync succeeds, what it writes and counts, and that a failure writes nothing |
| ArgillaSync.CountsAddUp | ai_data_studio/review/argilla_remote.py:89-93 | created, updated and skipped add up to the total |
| ArgillaSync.SyncedIsUpToDate | ai_data_studio/review/argilla_remote.py:173-206 | after a sync every task is up to date remotely |
| ArgillaSync.SecondSyncSkipsAll | ai_data_studio/review/argilla_remote.py:147-215 | a second sync of the same tasks skips all of them and changes nothing |
| ArgillaSync.ActiveResponsesSurvive | ai_data_studio/review/argilla_remote.py:194-195 | a remote record with an active response is never replaced |
| ArgillaSync.OtherRecordsUntouched | ai_data_studio/review/argilla_remote.py:198-206 | remote records no task names are not touched |
| ArgillaSync.FreshExportIsNotStale | ai_data_studio/review/argilla_orchestration.py:84-102 | a response to an unchanged exported record is refused only for what it decides |
| ArgillaSync.ExportOrchestrator.ExportBatch | ai_data_studio/review/argilla_orchestration.py:45-63 | all tasks are built before anything is pushed; afterwards each record of the batch is up to date remotely |
| Splits.GroupBy | ai_data_studio/validation/split.py:50-62 | the grouping dictionaries |
| Splits.ValidateRecordIds | ai_data_studio/validation/split.py:113-131 | reports exactly the repeated record ids |
| Splits.ValidateAssignmentCoverage | ai_data_studio/validation/split.py:133-178 | reports exactly the unassigned and the unknown groups |
| Splits.ValidateIdentityTopology | ai_data_studio/validation/split.py:180-234 | reports exactly the identities that cross groups, and those that cross splits |
| Splits.ValidateSourceTargets | ai_data_studio/validation/split.py:236-286 | reports exactly the repeated physical targets, told apart by whether they cross splits |
| Splits.Validate | ai_data_studio/validation/split.py:40-111 | the issues are exactly those the records give rise to |
| Splits.AcceptsExactly | ai_data_studio/validation/split.py:40-111 | acceptance means unique ids, assigned groups, one group per identity and no repeated target |
| Splits.ChainStaysInSplit | ai_data_studio/validation/split.py:73-104 | records joined by a chain of shared family, content hash or document id are in one split |
| Splits.CrossingSplitCrossesGroup | ai_data_studio/validation/split.py:197-233 | an identity that crosses splits always crosses groups |
| Splits.AssignmentsAreTheManifest | ai_data_studio/datasets/splits.py:59-65 | with unique group ids the dictionary says what the manifest says |
| Splits.ResolveRecordSplits | ai_data_studio/validation/split.py:289-304 | succeeds exactly on separated records and gives every record the split of its group |
| Gold.SameKeySameSignature | ai_data_studio/datasets/hashing.py:204-218 | annotations with equal sort keys agree in the validator's signature |
| Gold.AnnotationKeysIdentify | ai_data_studio/datasets/hashing.py:204-230 | validation makes annotation sort keys unique |
| Gold.ScopeKeysIdentify | ai_data_studio/datasets/hashing.py:198-201 | validation makes scope sort keys unique |
| GoldHashing.PayloadIgnoresOrder | ai_data_studio/datasets/hashing.py:144-165 | permuting elements, scopes or annotations of a valid case leaves its hash payload as it is |
| GoldHashing.SplitHashForgetsOrder | ai_data_studio/datasets/hashing.py:30-58 | a split hash depends only on the versions and the collection of canonical cases |
| GoldHashing.DatasetHashExactly | ai_data_studio/datasets/hashing.py:61-95 | two valid datasets have the same hash if and only if versions and canonical cases agree |
| GoldHashing.CorpusHashForgetsOrder | ai_data_studio/datasets/hashing.py:98-110 | the corpus hash depends only on the collection of canonical cases |
| GoldHashing.EvidenceOrderIgnored | ai_data_studio/datasets/hashing.py:181-218 | evidence order does not reach the hash when no two annotations agree in target, type, value and ontology |
| GoldHashing.EvidenceOrderCanMatter | ai_data_studio/datasets/hashing.py:204-218 | in general it does: a concrete valid case where permuting evidence changes the payload |
| EvidenceOrder.ArrangementsLieBetween | ai_data_studio/datasets/hashing.py:181-218 | every arrangement of evidence sorts between the ascending and the descending one |
| EvidenceOrder.EvidenceOrderExactly | ai_data_studio/datasets/hashing.py:144-218 | over the valid orders of evidence of a valid case the payload is the same if the evidence of no two annotations interleaves, and only if that of no two that stand alone in target, type, normalized value and ranges does; exact where all stand alone |
| EvidenceOrder.AloneIsNeeded | source_understanding/evaluation/semantic.py:223-234 | without standing alone interleaving evidence need not show: a valid case whose only valid rearrangement swaps two annotations |
| EvidenceOrder.RearrangementExactly | ai_data_studio/datasets/hashing.py:144-218 | among annotations that differ in more than evidence order, one given rearrangement leaves the payload as it is exactly when it sorts annotations of equal prefix as before |
| EvidenceOrder.TwinsHideOrder | ai_data_studio/datasets/hashing.py:144-218 | annotations that differ only in evidence order are the exception: they can swap places unseen |
| Compiler.CompileDecisions | ai_data_studio/datasets/compiler.py:110-133 | one annotation per positive decision, in type order; undecided decisions and unknown evidence fail |
| Compiler.CompileDocument | ai_data_studio/datasets/compiler.py:61-170 | the compiled case, and what each failure means; records that hold in the document never give unknown evidence, and invalid gold only by a text over the limit |
| Compiler.SeparatedHasDistinctTargets | ai_data_studio/datasets/compiler.py:85-98 | records the split validator accepts never claim one target twice within a document revision |
| Compiler.SeparatedHasOneSplit | ai_data_studio/datasets/compiler.py:218-226 | records of one document resolve to one split |
| Compiler.CompileGroup | ai_data_studio/datasets/compiler.py:210-234 | neither the multi-split nor the duplicate-target error happens; nor, for records that hold, a missing document or unknown evidence, and invalid gold only by a text over the limit |
| Compiler.GroupsAddUp | ai_data_studio/datasets/compiler.py:205-207 | the document groups share out the records |
| Compiler.CompileDataset | ai_data_studio/datasets/compiler.py:172-245 | the same over all documents; on success every record has its scope in its document's case and split, nothing else appears, and scopes add up to records |
| GoldValidity.EvidenceResolves | ai_data_studio/validation/evidence.py:16-100 | all evidence of records that passed the working-record checks is found in the document |
| GoldValidity.ValidGoldExactly | source_understanding/evaluation/semantic.py:47-255 | records with distinct targets that passed the working-record checks project to a case the gold validator accepts exactly when no text of the document, targeted or not, is over the limit of gold |
| GoldValidity.AcceptedSourcesMatch | ai_data_studio/validation/working_record.py:101-175 | the sources of accepted records fit their document exactly when the document has a language |
| Compiler.CompileValidated | ai_data_studio/datasets/compilation.py:67-110 | when exactly compilation behind validation succeeds, texts and name within the limits of gold included; four failures of the projection cannot happen; the result is a valid dataset |
| Compiler.LongTextIsRefused | ai_data_studio/datasets/compiler.py:135-143 | a document whose record is accepted and meets every other condition, refused for a long text no record targets |
| Compiler.NoLeakageBetweenCases | ai_data_studio/datasets/compiler.py:209-234 | documents joined by a chain of shared identities end up in one split |
| Compiler.CompiledHashIgnoresEvidenceOrder | ai_data_studio/datasets/compiler.py:349-380 | in compiled cases evidence order never reaches the hash |
| Freeze.TotalBySplit | ai_data_studio/datasets/freeze.py:565-570 | counting split by split loses nothing |
| Freeze.NoSplitIssue | ai_data_studio/datasets/freeze.py:203-331 | one split file has no issue exactly when it is consistent with the manifest |
| Freeze.VerdictIsConsistency | ai_data_studio/datasets/freeze.py:333-402 | the report is empty exactly when the release is consistent, the total counts following from the splits |
| Freeze.VerifyFrozenDataset | ai_data_studio/datasets/freeze.py:172-402 | reports all there is to say, and nothing exactly on consistent releases; raises exactly when an issue is over the length limit or two splits carry one document |
| FreezeResults.SplitsPartition | ai_data_studio/datasets/freeze.py:405-429 | the splits are a partition of the cases |
| FreezeResults.RecombiningRestores | ai_data_studio/datasets/freeze.py:617-639 | splitting and recombining restores the document-sorted corpus |
| FreezeResults.CountsSum | ai_data_studio/datasets/manifest.py:149-163 | per-split counts sum to the totals |
| FreezeResults.ManifestCarriesDatasetHash | ai_data_studio/datasets/freeze.py:517-522 | the dataset hash built from split artifacts is the hash of the whole dataset |
| FreezeResults.BuiltManifestIsValid | ai_data_studio/datasets/manifest.py:123-164 | the manifest of a valid dataset passes its own validator |
| FreezeResults.FreezeThenVerify | ai_data_studio/datasets/freeze.py:504-614 | freezing a valid dataset and verifying the result reports no issue |
| FreezeResults.EqualHashSameCases | ai_data_studio/datasets/freeze.py:298-352 | two verifying releases with equal dataset hash carry the same semantic cases split by split |
| FreezeResults.ExchangedSplitIsDetected | ai_data_studio/datasets/freeze.py:298-310 | a split file cannot be exchanged for one with other semantic cases |
| FreezeFailures.SharedDocumentRaises | ai_data_studio/datasets/freeze.py:353-372 | any valid case released in two splits makes verification raise, although the manifest is readable, each split is consistent and the dataset hash agrees |
| FreezeFailures.RaisingHappens | ai_data_studio/datasets/freeze.py:353-372 | such files exist whatever the validation rules |
| FreezeFailures.OnlyErrorsAndCounts | ai_data_studio/datasets/manifest.py:191-194 | with paths, hashes and quoted strings of usual length only a quoted reading error or counts of thousands of digits can make an issue too long |
| FreezeFailures.LongErrorRaises | ai_data_studio/datasets/freeze.py:240-253 | a split file with a long reading error makes verification raise though no document is shared |
| FreezeFailures.LongManifestErrorRaises | ai_data_studio/datasets/freeze.py:185-196 | so does a manifest with a long reading error |
| FreezeFailures.HugeCountsRaise | ai_data_studio/datasets/freeze.py:312-331 | so does a manifest that declares a number of documents of thousands of digits, over a valid split file |
| Publish.PrepareRelease | ai_data_studio/datasets/freeze.py:63-110 | which inputs can be frozen, versions of at most 128 characters included, and that what is laid out verifies |
| Publish.StepKeepsInv | ai_data_studio/datasets/freeze.py:79-150 | the invariant of the publish protocol under every step |
| Publish.AtMostOnePublishes | ai_data_studio/datasets/freeze.py:79-150 | in every interleaving at most one freezer publishes, and what stands published passed verification |
| Publish.ReleaseNeverChanges | ai_data_studio/datasets/freeze.py:121-140 | a published release never changes afterwards |
| Publish.LoserTouchesNothing | ai_data_studio/datasets/freeze.py:141-150 | a failing freezer leaves the final directory and the others alone |
| Publish.OnlyVerifiedFilesAppear | ai_data_studio/datasets/freeze.py:116-139 | the final directory changes only by a rename of verified files, or from outside |
| Publish.ReleaseInPlaceIsReported | ai_data_studio/datasets/freeze.py:82-138 | a release in place is reported as already frozen in whichever step it is noticed |
| Publish.UndisturbedFreezePublishes | ai_data_studio/datasets/freeze.py:101-140 | without faults and competitors a freezer publishes exactly its files |

## Left out

- Structure stages, PDF adapter, region segmentation and relation builder: not part of this model.
- Zip and XML parsing, JSON encoding, codecs, the regular expressions behind the Markdown classifiers, `str.strip`, case folding and Unicode normalization: taken as parsed input or as function parameters.
- Float rounding: reals are used throughout.
- Argilla SDK calls, dataset settings checks, the web application, webhook signatures and webhook payload parsing: the model starts from a parsed webhook and from a dataset that exists and matches.
- ArgillaSync.ArgillaReviewRemote.SyncTasks: a log call that fails is taken to have written nothing, and logging a record is taken to keep its responses.
- Concurrent writers of the JSONL file: the repository is a single-writer one, so each operation is one step.
- Resetting caches, asset and external chunk parts, notes and header stories, hyperlinks, and the metadata of DOCX elements: they add elements or attributes of the same shape.
- DOCX namespaces: a node says whether its name is in the main word-processing namespace; paths are segment sequences, rendered to text in `DocxPaths` for trees whose names are XML local names; group ids of tables are represented by the path they digest.
- DocxDocument.BodyAdapter.EmitParagraph: the later rewriting of the paragraph element is not modelled, because it changes neither order nor tables: heading and navigation attributes, and the text of an empty formula, which is set after the text limit was checked.
- DocxLists.Emitter.NormalizeListIntegrity: booleans given as numbering levels count as integers, as in the language of the source.
- Paragraph classification in the DOCX adapter (headings, numbering state, list levels) and opaque block metadata: attributes of elements whose order and tables are modelled.
- Counts of merged duplicate styles, which only appear in an informational diagnostic.
- Preservation ratios, which are divisions of the modelled counters, and truncation of hash-based ids.
- Malformed source anchors, which make the aligner raise before it aligns; elements come with their anchors read.
- Field-format validators (trimmed strings, time zones), and length limits that the schema before a step and the one after it impose alike; error messages outside release verification.
- Splits.Validate: an identity shared by so many split groups that the message of its issue is over 4096 characters makes the validator raise instead of report; messages are taken to fit.
- Freeze.VerifyFrozenDataset: the texts of parse errors, paths, quoted strings and hashes are functions of what they print; an entry that changes while it is read is not modelled.
- Eligibility reasons, and the choice of eligibility policy: one predicate on records.
- EvidenceOrder.RearrangementExactly: for one given rearrangement the pairwise condition assumes that no two annotations differ only in evidence order, because such twins swap places unseen (`EvidenceOrder.TwinsHideOrder`).
- EvidenceOrder.EvidenceOrderExactly: necessity is shown for annotations that stand alone; where several annotations of one target, type and normalized value quote the same ranges, distinct signatures restrict which orders are valid together, and which of them still change the payload is not characterised.
- Text snapshots and ids of targets, logical units and working batches: predicates of the document in the review models, and the parameters `recordChecks` and `batchChecks` in compilation.
- Compiler.CompileValidated: a document's ascending element orders and unique ids are part of acceptance, since the document schema guarantees them; metadata added afterwards is left out.
- Publish.PrepareRelease: the creation time is a parameter.
- Crashes in the middle of a freeze: a freezer that stops leaves its private directory behind, which no other step looks at.
