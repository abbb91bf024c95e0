# EvidenceDesk: a verified model of its core logic

EvidenceDesk ingests supplier documents, cuts them into chunks, ranks the chunks for a question and answers only
what a cited passage supports; an evaluation runner scores that engine and a separate recalculator re-derives the
scores from the raw artifact. This project models the parts whose correctness rests on several functions or on the
order of many steps, and proves what they promise.

| file | what it models |
|---|---|
| `Text.dfy`, `Common.dfy` | Python's whitespace, words, stripping, substrings and lines; options, results, lists |
| `Lifecycle.dfy` | the transactions on a document's rows, as methods on mutable rows, and the protocol of uploads, enqueue failures, deletes and any number of interleaved worker runs |
| `LifecycleSafety.dfy` | what holds in every reachable state of every interleaving |
| `LifecycleCompleted.dfy` | exactly which completed documents stay completed until they are deleted |
| `LifecycleProgress.dfy` | what holds besides when the queue runs one job per document |
| `LifecycleTransactions.dfy` | what single transactions write, on deleted and completed documents too |
| `Processing.dfy`, `ProcessingOutcomes.dfy` | one whole call of the worker's job, as a method, its place in the protocol, and how it ends for every failure |
| `RateLimiter.dfy`, `LimiterExactness.dfy`, `LimiterDecisions.dfy` | the sliding-log limiter with its bounded table, against a limiter that forgets nothing, exactly when the two can be told apart, and what is decided for each request of a run |
| `Chunking.dfy`, `ChunkPlacement.dfy`, `Markdown.dfy` | sentences, greedy packing and chunks, and their pages and sections; Markdown pages and sections |
| `Latency.dfy`, `Metrics.dfy`, `Runner.dfy`, `Recalculation.dfy`, `Agreement.dfy`, `Manifest.dfy` | the evaluation runner, the recalculator and the manifest checks that make them agree |
| `EvaluationCounts.dfy`, `ArtifactChecks.dfy`, `Verdict.dfy` | what the runner counts, which artifacts the recalculator accepts, and when an evaluation passes, each without naming how it is computed |
| `Extraction.dfy`, `ExtractionTotals.dfy`, `ExtractionCredit.dfy` | the extraction evaluation, what its totals count, its greedy matching and exactly when that matching is a largest one |
| `Money.dfy` | the normal form of money numbers |
| `Ranking.dfy`, `RankingPlacement.dfy` | lexical, dense and fused ranking, the candidates of a question, and where the raw scores place each chunk |
| `Sanitizer.dfy`, `SanitizerKeeps.dfy` | the recursive sanitiser of stored output, and exactly what it removes |
| `Grounding.dfy`, `Answering.dfy`, `Decision.dfy` | segments and the validator of grounded answers; the evidence loops; the decision |
| `GroundedAnswers.dfy`, `EvidenceReading.dfy`, `DecisionOutcomes.dfy` | exactly which answers pass the validator, how evidence is read and weighed, and which answer is due to each question |

Code that changes things step by step is written as methods with loops over mutable state and proved against
functions; the theorems are about those functions. Regular expressions for trust, dates, amounts and question kinds,
embeddings and the relation test are parameters; what the engine needs from them is the predicate
`Answering.Contract`. Times, scores and rates are exact reals.

Some properties one might expect do not hold of the code. For each there is an input on which it fails and the exact
condition under which it holds:

- A completed document can be queued again when two runs of its job are active (`CompletedCanRevert`); only the
  failure recorders of its runs and the enqueue-failure handler do that (`CompletedRevertsExactlyWhen`). It stays
  completed along every schedule that does not delete it exactly when its upload no longer awaits its enqueue and no
  run that finds it is in flight (`CompletedStaysExactlyWhen`), which is so if it was completed with one active run
  per document (`CompletedStays`).
- The limiter with a bounded table can forget a key that must wait (`ForgetsWhenKeysDoNotFit`). An eviction forgets an
  event inside the window exactly when at least `max_keys` other keys are active (`EvictionForgetsExactlyWhen`); a run
  never meets such a request exactly when no repetition of a key at the time of one of its requests is decided
  differently by a limiter that forgets nothing (`KeysFitExactlyWhen`).
- A case that fails after its counters started moving is not replayed in full (`LateFailureIsMissed`); the counts
  agree exactly when no failure comes after something was counted (`CountsAgreeExactlyWhen`).
- The entity boost places the named entity first on every list of n candidates exactly when n is at most 96
  (`EntityFirstExactlyWhen`).
- Greedy matching of extracted values is a largest matching on every list of values exactly when the comparison has no
  Z pattern, in which three of the four pairs of two extracted and two expected values match
  (`GreedyMaximalExactlyWhen`, and `MaximalAmongExactlyWhen` for the values of one field). Comparing dates has none
  (`SameFormCreditsMost`), comparing money has one exactly when some text states two amounts
  (`MoneyCreditsMostExactlyWhen`), and comparing texts has one, on concrete text (`TextCanMissCredit`).
- A sanitised payload need not be clean as a whole, because the entry point checks its values and not the payload as a
  record (`UncitedPayloadIsKept`); it is clean exactly when it is not a record with a value and empty citations
  (`PayloadIsCleanExactlyWhen`).

## Model

| member | source | states |
|---|---|---|
| Lifecycle.Session.constructor | apps/api/evidencedesk_api/main.py:400-430 | a committed upload starts queued, with no attempt, no derived data and one audit entry |
| Lifecycle.Session.CancelDeletedDocument | apps/worker/evidencedesk_worker/jobs.py:147-170 | the task fails as deleted, audited once however often it is called; nothing else changes |
| Lifecycle.Session.Claim | apps/worker/evidencedesk_worker/jobs.py:184-214 | the whole new state of a claim on a deleted, completed or other document, and the reply |
| Lifecycle.Session.RecordStorageFailure | apps/worker/evidencedesk_worker/jobs.py:60-86 | the whole new state, on a deleted document too: retry queues both rows, otherwise both fail, with the same code |
| Lifecycle.Session.RecordParseFailure | apps/worker/evidencedesk_worker/jobs.py:89-114 | a parse failure is never retried |
| Lifecycle.Session.RecordProcessingFailure | apps/worker/evidencedesk_worker/jobs.py:117-144 | as for storage failures, with the processing codes |
| Lifecycle.Session.Persist | apps/worker/evidencedesk_worker/jobs.py:331-371 | earlier chunks and extractions are replaced by the run's own, unless the document is deleted or completed |
| Lifecycle.Session.Delete | apps/api/evidencedesk_api/main.py:474-510 | derived data goes, an unfinished task fails, a finished one keeps its status, a second delete does nothing |
| Lifecycle.Session.HandleEnqueueFailure | apps/api/evidencedesk_api/main.py:452-468 | both rows fail whatever their status or deletion mark |
| Processing.ProcessDocument | apps/worker/evidencedesk_worker/jobs.py:173-400 | for every outcome of storage, parser, stages and commit: the final rows and how the call ends, retry or not by attempt |
| Processing.CallIsASchedule | apps/worker/evidencedesk_worker/jobs.py:173-400 | a call nobody interferes with is a schedule of the protocol made of its own run's steps |
| ProcessingOutcomes.CallEndsExactlyWhen | apps/worker/evidencedesk_worker/jobs.py:173-400 | for every row and failure: a call is retried exactly when the document is open, fewer than three attempts are used up and the file is unreadable, a stage raises outside chunking or the commit fails; each other ending has its own condition |
| ProcessingOutcomes.UnreadableFile | apps/worker/evidencedesk_worker/jobs.py:216-238 | both rows with their literal statuses, codes, attempts and audit entry after an unreadable file |
| ProcessingOutcomes.ParseFailure | apps/worker/evidencedesk_worker/jobs.py:240-258 | a parse error or too many chunks fail both rows with that code, whatever the attempt |
| ProcessingOutcomes.StageFailure | apps/worker/evidencedesk_worker/jobs.py:312-329 | a stage that raises, or a commit that fails, queues both rows before the third attempt and fails them on it |
| ProcessingOutcomes.NothingFails | apps/worker/evidencedesk_worker/jobs.py:331-371 | otherwise the document is completed with the pieces of its pages as this run's chunks and one extraction |
| ProcessingOutcomes.ClosedRow | apps/worker/evidencedesk_worker/jobs.py:188-204 | a deleted document's task is cancelled and a completed document is left alone |
| LifecycleTransactions.CancelsOnce | apps/worker/evidencedesk_worker/jobs.py:147-170 | cancelling writes the task alone, is audited the first time only, and changes nothing a second time |
| LifecycleTransactions.DeletedIsOnlyCancelled | apps/worker/evidencedesk_worker/jobs.py:60-214 | on a deleted document claiming, persisting and recording a failure all do no more than cancel the task |
| LifecycleTransactions.CompletedIsLeftAlone | apps/worker/evidencedesk_worker/jobs.py:60-144 | claims and persisting leave a completed document as it is; a recorded failure writes over both statuses |
| LifecycleTransactions.DeletesOnce | apps/api/evidencedesk_api/main.py:481-509 | a delete empties the document, fails an unfinished task, keeps a finished one, and happens once |
| LifecycleTransactions.RefusalFailsBoth | apps/api/evidencedesk_api/main.py:452-468 | a refused enqueue fails both rows and keeps the deletion mark and derived data |
| LifecycleSafety.StepKeepsInv | apps/worker/evidencedesk_worker/jobs.py:46-57 | every step of every run, upload, enqueue failure and delete keeps the invariant, because each worker transaction looks again after locking |
| LifecycleSafety.ReachableStatesAreConsistent | apps/worker/evidencedesk_worker/jobs.py:331-371 | in every reachable state of any interleaving a completed document holds the whole output of one run, numbered from 0; live rows agree on status and error code; no two live documents share a key |
| LifecycleSafety.DeletionIsAbsorbing | apps/worker/evidencedesk_worker/jobs.py:147-170 | once deleted, no schedule brings back chunks or an extraction, moves the deletion time or reopens the task |
| LifecycleSafety.DeleteReachesGone | apps/api/evidencedesk_api/main.py:481-509 | deleting a live document reaches that state at once, from any state |
| LifecycleSafety.DeletedMeansGone | apps/api/evidencedesk_api/main.py:481-509 | in reachable states the deletion mark and that state are the same thing |
| LifecycleSafety.CompletedRevertsExactlyWhen | apps/worker/evidencedesk_worker/jobs.py:60-144 | a completed live document loses its status in exactly two kinds of step |
| LifecycleCompleted.CompletedStaysExactlyWhen | apps/worker/evidencedesk_worker/jobs.py:60-144 | in a reachable state a completed document stays completed along every schedule that does not delete it exactly when its upload no longer awaits its enqueue and no run that finds it has claimed and not yet ended |
| LifecycleSafety.CompletedCanRevert | apps/worker/evidencedesk_worker/jobs.py:121-130 | a reachable state in which a second run queues a completed document again |
| LifecycleProgress.StatusSaysWhereTheWorkIs | apps/api/evidencedesk_api/queueing.py:30 | with one job per document: queued means a job or an upload before its enqueue, processing means exactly one active run, at most three claims, attempts equal recorded ends plus runs in flight |
| LifecycleProgress.CompletedStays | apps/api/evidencedesk_api/queueing.py:30 | a document completed with one active run per document stays completed along every later schedule that does not delete it |
| LifecycleProgress.WorkDecreases | apps/worker/evidencedesk_worker/jobs.py:204-235 | every step that works on a document uses up some of its work, and no other step adds any |
| LifecycleProgress.WorkIsBounded | apps/worker/evidencedesk_worker/main.py:38 | no schedule works on a document for ever: retries end |
| LifecycleProgress.NeverStuck | apps/worker/evidencedesk_worker/jobs.py:372-390 | a live document that is neither completed nor failed always has a step that works on it |
| RateLimiter.Limiter.constructor | apps/api/evidencedesk_api/request_limits.py:112-133 | the limiter starts with an empty table |
| RateLimiter.Limiter.Create | apps/api/evidencedesk_api/request_limits.py:120-133 | configurations that cannot work are refused, all others give an empty limiter |
| RateLimiter.Limiter.FindOldest | apps/api/evidencedesk_api/request_limits.py:159-162 | the evicted key is the first in insertion order with the least recent last event |
| RateLimiter.Limiter.Enter | apps/api/evidencedesk_api/request_limits.py:156-165 | a new key enters, evicting one only from a full table |
| RateLimiter.Limiter.Admit | apps/api/evidencedesk_api/request_limits.py:151-173 | the decision, the hint and the whole new table |
| RateLimiter.Limiter.Settle | apps/api/evidencedesk_api/request_limits.py:167-173 | the pruned log is stored, with the present time exactly if it is below the limit |
| RateLimiter.AdmitKeepsTable | apps/api/evidencedesk_api/request_limits.py:151-173 | every stored log stays non-empty, sorted and within its limit, and the table within `max_keys` |
| RateLimiter.EvictionIsHarmless | apps/api/evidencedesk_api/request_limits.py:158-163 | while fewer than `max_keys` other keys are active, only a wholly expired log is evicted |
| RateLimiter.EvictionForgetsExactlyWhen | apps/api/evidencedesk_api/request_limits.py:158-163 | entering a key evicts an event still inside the window exactly when at least `max_keys` other keys are active |
| RateLimiter.BoundedRefinesUnbounded | apps/api/evidencedesk_api/request_limits.py:151-173 | under that bound every run gets the decisions and hints of a limiter that keeps every event of every key |
| RateLimiter.ForgetsWhenKeysDoNotFit | apps/api/evidencedesk_api/request_limits.py:158-163 | without the bound a key that must wait 58 seconds is admitted |
| LimiterExactness.KeysFitExactlyWhen | apps/api/evidencedesk_api/request_limits.py:151-173 | for any run: fewer than `max_keys` other keys are active at each request exactly when no key, repeated any number of times at the time of one of the requests, is decided differently by the limiter that keeps every event |
| RateLimiter.WindowNeverExceedsLimit | apps/api/evidencedesk_api/request_limits.py:166-173 | in any window, at the end of any run, a key's admissions since its last eviction number at most its limit |
| RateLimiter.HintIsWait | apps/api/evidencedesk_api/request_limits.py:170 | the guard for at least one second never changes the hint |
| RateLimiter.RetryHintIsExact | apps/api/evidencedesk_api/request_limits.py:166-173 | a lone retry a whole number of seconds later is admitted if and only if it waits at least the hint |
| RateLimiter.RefusalsUseNoQuota | apps/api/evidencedesk_api/request_limits.py:169-171 | until a full log's oldest event leaves the window every further request of the key is refused and leaves its log unchanged, whatever other keys do |
| LimiterDecisions.DecisionsAreRight | apps/api/evidencedesk_api/request_limits.py:151-173 | in every run whose keys fit, a request is admitted exactly when fewer admissions of its key than its limit lie inside the window, and a refused one is told the least whole number of seconds until the oldest of them leaves |
| Chunking.CutLine | apps/api/evidencedesk_api/processing.py:222-233 | the loop over boundary matches computes the sentences of a line |
| Chunking.Sentences | apps/api/evidencedesk_api/processing.py:222-233 | the sentences of a text, line by line |
| Chunking.SentencesKeepWords | apps/api/evidencedesk_api/processing.py:222-233 | cutting into sentences loses, adds and moves no word |
| Chunking.SentencesAreAtomic | apps/api/evidencedesk_api/processing.py:222-233 | every boundary is a cut: no sentence can be cut further |
| Chunking.LineIsCutAtTerminators | apps/api/evidencedesk_api/processing.py:222-233 | a line is cut only behind a terminator, into slices of itself |
| Chunking.SliceWord | apps/api/evidencedesk_api/processing.py:245-252 | an overlong word becomes consecutive full slices and a rest |
| Chunking.PackWords | apps/api/evidencedesk_api/processing.py:241-262 | the loop with its running list and running length is greedy packing |
| Chunking.SplitText | apps/api/evidencedesk_api/processing.py:236-262 | the pieces of a text, sentence by sentence |
| Chunking.PiecesBounded | apps/api/evidencedesk_api/processing.py:236-262 | every piece is non-empty and at most `max_chars` long |
| Chunking.PiecesKeepWords | apps/api/evidencedesk_api/processing.py:236-262 | the pieces hold the words of the text in order; only a word that cannot fit is cut |
| Chunking.GreedyIsOptimal | apps/api/evidencedesk_api/processing.py:241-262 | for a sentence too long for one piece and without overlong words, no way of cutting its words into groups that fit needs fewer pieces |
| Chunking.ChunkPages | apps/api/evidencedesk_api/processing.py:265-279 | the nested loops give the numbered pieces of all pages, or the error as soon as there are too many |
| Chunking.ChunkingConservesText | apps/api/evidencedesk_api/processing.py:265-279 | over all pages: words and visible characters are conserved in order, chunks are bounded and ordinals count from 0 |
| Chunking.TooManyExactlyWhen | apps/api/evidencedesk_api/processing.py:272-274 | the error is raised exactly when all texts together have more pieces than `max_chunks` |
| ChunkPlacement.EveryChunkStems | apps/api/evidencedesk_api/processing.py:265-279 | every chunk is a piece of some block of some page and has that page's number and that block's section |
| ChunkPlacement.EverySectionKeepsWords | apps/api/evidencedesk_api/processing.py:265-279 | for every page number and section the chunks there hold the words of the blocks there, in order |
| ChunkPlacement.SlicesAreFull | apps/api/evidencedesk_api/processing.py:245-252 | every slice of an overlong word but the last is full |
| ChunkPlacement.GroupsAreFull | apps/api/evidencedesk_api/processing.py:241-262 | no piece has room for the first word of the next |
| ChunkPlacement.OverlongWordsStandAlone | apps/api/evidencedesk_api/processing.py:245-252 | the slices of an overlong word come between what the words before and behind it give by themselves |
| ChunkPlacement.ShortSentencesStayWhole | apps/api/evidencedesk_api/processing.py:236-240 | a sentence that fits is one piece as it stands |
| Markdown.ClassifiedExactlyWhen | apps/api/evidencedesk_api/processing.py:158-160 | a line is a heading exactly when, stripped, it is one to six `#`, whitespace and a trimmed title |
| Markdown.ReadLine | apps/api/evidencedesk_api/processing.py:161-176 | one turn of the loop: flush, page break, section and heading block |
| Markdown.ParseMarkdown | apps/api/evidencedesk_api/processing.py:149-180 | the loop over the lines computes the pages |
| Markdown.PagesAreTheSourceBlocks | apps/api/evidencedesk_api/processing.py:149-180 | pages are numbered from 1 with non-blank blocks; in order the blocks are one per level-1 title and one per run of consecutive text lines, joined and stripped, each under the last heading above it and on the page that counts the level-2 headings with text before them |
| Markdown.PagesKeepTheSource | apps/api/evidencedesk_api/processing.py:149-180 | the blocks hold each word of text lines and level-1 titles once and in order, with its section and page |
| Markdown.SecondLevelOpensAPage | apps/api/evidencedesk_api/processing.py:167-171 | a level-2 heading opens a page exactly when the page already has a block |
| Latency.SortRounded | evals/recalculate.py:40-44 | rounding commutes with sorting |
| Latency.P95SurvivesRounding | evals/recalculate.py:40-44 | the 95th percentile of rounded latencies is the rounded 95th percentile |
| Latency.MedianSurvivesRounding | evals/recalculate.py:56-64 | the median of rounded latencies is within 0.001 of the recorded one, and equal for odd counts |
| Latency.MedianBoundIsTight | evals/recalculate.py:61-63 | two latencies for which the difference is a full 0.001 |
| Latency.P95IsLeast | evals/recalculate.py:40-44 | the 95th percentile is the least value that at least 95 in 100 values do not exceed |
| Latency.KthIsUnique | evals/recalculate.py:40-44 | there is one k-th smallest value, so both statistics are determined by the values |
| Latency.MedianIsMiddle | evals/recalculate.py:226 | the median is the middle value or halfway between the two middle ones |
| Runner.CountRetrieval | evals/runner.py:646-661 | hits and reciprocal rank of the first match among five |
| Runner.CountCitations | evals/runner.py:668-679 | citations are counted for answerable cases alone |
| Runner.CountDecision | evals/runner.py:684-694 | correct answers and correct abstentions |
| Runner.EvaluateCase | evals/runner.py:619-739 | for an engine that succeeds or fails at any point: the counters moved, the times measured and the record written |
| Runner.EvaluateCases | evals/runner.py:604-739 | the loop's counters, times and records are those of all cases together |
| EvaluationCounts.TotalsAre | evals/runner.py:604-739 | each counter is the number of cases or citations with a stated property: finds among the five best, their reciprocal ranks, right answers, rightly withheld cases, errors, matching citations |
| EvaluationCounts.AnswerableIsNumber | evals/runner.py:612 | the total of answerable cases is their number |
| EvaluationCounts.RankIsFirst | evals/runner.py:646-661 | the recorded rank is that of the first of the five best passages at an expected location |
| EvaluationCounts.TimesAre | evals/runner.py:666-721 | one time is measured per case, and a second one for each that fails after its answer |
| Recalculation.CheckCompletion | evals/recalculate.py:117-123 | completion state is required by strict schemas and excludes passages when false |
| Recalculation.CheckLocations | evals/recalculate.py:124-158 | recorded matches must be those of the recorded passages and locations |
| Recalculation.CheckRank | evals/recalculate.py:159-178 | the rank must be that of the matches and within the passages |
| Recalculation.RecalculateCase | evals/recalculate.py:88-185 | one record adds its tally or raises its first flaw |
| Recalculation.RecalculateCases | evals/recalculate.py:88-185 | the loop gives the sum of the records or the first flaw |
| Recalculation.Recalculate | evals/recalculate.py:67-296 | the metrics of an artifact, or why it is rejected |
| ArtifactChecks.RecordExactlyWhen | evals/recalculate.py:88-185 | a record is accepted exactly when its matches are those of its passages, its rank is that of its first match and within them, and its completion and latency are possible |
| ArtifactChecks.AcceptedExactlyWhen | evals/recalculate.py:67-296 | an artifact is accepted exactly when its schema is known, every record is true and every recorded metric and measurement agrees with the numbers counted in the records; those numbers are returned |
| Verdict.PassesExactlyWhen | evals/runner.py:46-71 | an evaluation passes exactly when, in whole numbers, the 90, 85 and 90 in 100 targets are reached up to half a millionth and errors are fewer than one in two million |
| Verdict.RatesAreQuotients | evals/recalculate.py:215-225 | every rate is, up to half a millionth, the quotient of its two counts |
| Metrics.ReciprocalInverts | evals/runner.py:661 | the reciprocal recorded for a rank among the five best times that rank is 1 |
| Agreement.EvaluateManifest | evals/runner.py:604-815 | the case loop and the extraction evaluation give the runner's counts, totals, rates, verdict and artifact |
| Agreement.RecordReplays | evals/recalculate.py:88-185 | a record the runner wrote is accepted exactly when its expected locations are real, and then gives back what the runner counted for that case before any late failure |
| Agreement.CountsAgreeExactlyWhen | evals/recalculate.py:88-185 | for any engine: the replayed counts are the runner's exactly when no failure comes after something was counted |
| Agreement.LateFailureIsMissed | evals/runner.py:668-739 | a case whose expected citation the replay misses |
| Agreement.FinishAccepts | evals/recalculate.py:56-64 | the 0.001001 tolerance rejects no honestly recorded rate or latency |
| Agreement.ReplayAgrees | evals/recalculate.py:67-296 | for any cases and any engine that fails in time, the recalculator accepts the runner's artifact exactly when every answerable case is locatable, and returns the runner's counts, totals, rates and verdict |
| Manifest.CheckCitations | evals/validate_dataset.py:144-164 | the citation loop raises the first flaw, and otherwise its flags say whether all are known and exact |
| Manifest.ValidateCases | evals/validate_dataset.py:94-166 | accepted exactly when no case is flawed or repeats an id; the first flaw is reported; the flags are exact; the kinds add up; the splits never overlap |
| Manifest.ValidManifestReplays | evals/validate_dataset.py:140-164 | for an accepted manifest with known and exact citations, any split and any engine that fails in time, the recalculator does not raise and returns the runner's metrics |
| Manifest.AcceptedExactlyWhen | evals/validate_dataset.py:94-166 | the cases are accepted exactly when each has an id of its own and the fields its kind demands |
| Manifest.FlagsExactlyWhen | evals/validate_dataset.py:144-164 | both flags are set exactly when every citation quotes a page of a corpus document word for word |
| Extraction.MatchField | evals/runner.py:498-533 | the loop over expected values with its `unmatched` list |
| Extraction.RemovesTheMatch | evals/runner.py:516-531 | `remove` takes out the very value that matched |
| Extraction.CreditIsMatching | evals/runner.py:498-533 | credited pairs match, no extracted and no supported value is used twice, and nothing is lost from the list |
| ExtractionTotals.TotalsAre | evals/runner.py:457-543 | the totals are sums over the targets of the split alone: expected values, values of those with an extraction, credited pairs |
| ExtractionTotals.CitedExactlyWhen | evals/runner.py:500-512 | a value is cited exactly when some citation matches its own expected citation, or any where they are not one per value |
| ExtractionTotals.FoundExactlyWhen | evals/runner.py:513-527 | a value is found exactly when a value not credited before matches it |
| ExtractionTotals.CreditIsFoundAndCited | evals/runner.py:528-533 | exactly the found and cited values are credited, so an uncited one earns nothing |
| ExtractionCredit.CreditByKeys | evals/runner.py:498-533 | for values compared by keys the credit is the size of the common part of the two collections of keys |
| ExtractionCredit.GreedyMaximalExactlyWhen | evals/runner.py:498-533 | for every list of values no matching has more pairs than the credited ones, exactly when the comparison has no Z pattern |
| ExtractionCredit.MaximalAmongExactlyWhen | evals/runner.py:498-533 | the same for all lists made of given extracted and expected values |
| ExtractionCredit.SameFormCreditsMost | evals/runner.py:234-238 | comparing dates by their normal form credits the most any matching could |
| ExtractionCredit.MoneyCreditsMostExactlyWhen | evals/runner.py:230-233 | comparing money does exactly when no text states two amounts |
| ExtractionCredit.NormalIsFixed | evals/runner.py:103-106 | words of lower-case letters and digits with one space between them are their own normal form |
| ExtractionCredit.NormalizeIsNormal | evals/runner.py:103-106 | every normal form is words of letters and digits with one space between them, and normalising again changes nothing |
| ExtractionCredit.NormalizeKeepsLetters | evals/runner.py:103-106 | normalising loses no letter or digit of the folded text |
| ExtractionCredit.TextsMatchExactlyWhen | evals/runner.py:229-243 | texts match exactly when their normal forms are equal or one of three words or more stands in the other, in either order |
| ExtractionCredit.ContainmentMissesCredit | evals/runner.py:229-243 | with any two texts of three words, neither within the other, a whole and its head against the head and the tail are credited once although both pairs of a matching are possible |
| ExtractionCredit.TextCanMissCredit | evals/runner.py:229-243 | the same on concrete text |
| Extraction.EvaluateField | evals/runner.py:472-542 | the detail of one field, with an extraction or without |
| Extraction.EvaluateExtraction | evals/runner.py:457-543 | one detail per field of the split's targets, and totals that are their sums |
| Extraction.ExtractionRatesAreFractions | evals/runner.py:457-543 | precision and recall of any evaluation lie between 0 and 1 |
| Money.CanonicalIsNormalForm | evals/runner.py:156-174 | any grouping, any separators and either decimal mark give the decimal normal form of the value |
| Money.AlikeExactlyWhenEqual | evals/runner.py:156-174 | two numbers canonicalise alike exactly when their values are equal |
| Money.CanonicalIsFixed | evals/runner.py:156-174 | canonicalising twice changes nothing |
| Ranking.OrderIsUnique | apps/api/evidencedesk_api/retrieval.py:366-380 | the sort keys leave one order only |
| Ranking.RankingIgnoresOrder | apps/api/evidencedesk_api/retrieval.py:351-398 | with distinct ids every method's result is the same for every order of the candidates |
| Ranking.LargerLimitAppends | apps/api/evidencedesk_api/retrieval.py:362-398 | the result for a limit is a prefix of the result for the next |
| Ranking.HybridOrder | apps/api/evidencedesk_api/retrieval.py:376-396 | one chunk is placed before another exactly when fused score, lexical score and id say so |
| Ranking.AheadInBothStaysAhead | apps/api/evidencedesk_api/retrieval.py:376-396 | ahead in both orders with no smaller entity score is ahead in the fusion |
| Ranking.EntityFirst | apps/api/evidencedesk_api/retrieval.py:376-396 | with at most 96 candidates every chunk of the named entity precedes every other |
| Ranking.EntityCanComeSecond | apps/api/evidencedesk_api/retrieval.py:376-396 | an incompatible chunk of the named entity past lexical rank 96 is placed behind the lexically first chunk |
| Ranking.EntityFirstExactlyWhen | apps/api/evidencedesk_api/retrieval.py:376-396 | every list of n candidates places each chunk of the named entity before each other chunk exactly when n is at most 96 |
| RankingPlacement.LessExactlyWhen | apps/api/evidencedesk_api/retrieval.py:376-380 | ids compare by their first difference |
| RankingPlacement.LexicalRankCounts | apps/api/evidencedesk_api/retrieval.py:376-377 | the lexical rank counts the candidates with a higher lexical score, or the same and a smaller id |
| RankingPlacement.DenseRankCounts | apps/api/evidencedesk_api/retrieval.py:378-382 | the dense rank counts compatible candidates by dense score alike |
| RankingPlacement.LexicalPlacement | apps/api/evidencedesk_api/retrieval.py:366-370 | the lexical method places chunks by falling lexical score, then by id |
| RankingPlacement.DensePlacement | apps/api/evidencedesk_api/retrieval.py:366-375 | the dense method places exactly the compatible chunks, by falling dense score, then by id |
| RankingPlacement.HybridPlacement | apps/api/evidencedesk_api/retrieval.py:376-396 | the hybrid method places chunks by the fusion of the two counts, then by lexical score, then by id |
| RankingPlacement.BetterInBothIsFirst | apps/api/evidencedesk_api/retrieval.py:376-396 | better by both raw scores with no smaller entity score is placed first |
| RankingPlacement.CrossedCountsTie | apps/api/evidencedesk_api/retrieval.py:376-396 | the two rankings weigh the same: with crossed counts the lexical score decides |
| RankingPlacement.RankingReturns | apps/api/evidencedesk_api/retrieval.py:351-398 | a method returns exactly the candidates that take part, each with the score the method gives it |
| RankingPlacement.LimitCuts | apps/api/evidencedesk_api/retrieval.py:362-398 | a limit below one is refused; otherwise the first chunks of the ranking are returned, as many as the limit allows |
| Ranking.CollectCandidates | apps/api/evidencedesk_api/main.py:597-608 | one candidate per id, each the last row with that id, none missing |
| Ranking.EntityFirstForQuestions | apps/api/evidencedesk_api/main.py:573-609 | at the ask endpoint, with two searches of at most 20 rows, the named entity always comes first |
| Sanitizer.FragmentIndexes | apps/api/evidencedesk_api/trust_boundaries.py:257-272 | blocked are exactly the untrusted strings and, if the rest gives an order once joined, all strings that are not blank |
| Sanitizer.SanitizeItems | apps/api/evidencedesk_api/trust_boundaries.py:305-338 | the list loops, with the running string index, keep the unblocked items |
| Sanitizer.Sanitize | apps/api/evidencedesk_api/trust_boundaries.py:286-339 | the recursion over strings, records, lists and tuples |
| Sanitizer.SanitizedIsClean | apps/api/evidencedesk_api/trust_boundaries.py:286-339 | at any depth nothing untrusted is left: no string, no list of strings that gives an order when joined, no record with a value but no citation |
| Sanitizer.FixedExactlyWhenClean | apps/api/evidencedesk_api/trust_boundaries.py:286-339 | a tree is left unchanged exactly when it is clean |
| Sanitizer.SanitizedIsFixed | apps/api/evidencedesk_api/trust_boundaries.py:286-339 | sanitising is idempotent on every tree |
| Sanitizer.SanitizedIsPruned | apps/api/evidencedesk_api/trust_boundaries.py:286-339 | list items and map entries are only deleted |
| Sanitizer.PayloadIsFixed | apps/api/evidencedesk_api/trust_boundaries.py:342-354 | the entry point is idempotent and every value it keeps is clean |
| Sanitizer.PayloadIsCleanExactlyWhen | apps/api/evidencedesk_api/trust_boundaries.py:342-354 | what is left of a payload is clean as a whole exactly when it is not a record with a value and empty citations, and it is what sanitising it as a record gives exactly when that would reject neither its excerpt nor its value |
| Sanitizer.UncitedPayloadIsKept | apps/api/evidencedesk_api/trust_boundaries.py:342-354 | a payload with a value and an empty list of citations is kept unchanged |
| SanitizerKeeps.RemovedExactlyWhen | apps/api/evidencedesk_api/trust_boundaries.py:286-339 | removed are exactly nulls, untrusted strings, records quoting an untrusted excerpt and records whose value survives while their citations do not |
| SanitizerKeeps.EntriesKeptExactlyWhen | apps/api/evidencedesk_api/trust_boundaries.py:288-304 | a kept record keeps exactly the entries whose values are not removed |
| SanitizerKeeps.ListsKeepExactly | apps/api/evidencedesk_api/trust_boundaries.py:305-338 | lists and tuples are never removed and keep, in order, exactly the items that are not removed, alone or with their group |
| SanitizerKeeps.RemainingAre | apps/api/evidencedesk_api/trust_boundaries.py:264-269 | a group is what its strings leave that are neither blank nor untrusted alone, in order |
| Grounding.SegmentsAreParts | apps/api/evidencedesk_api/answering.py:646-657 | every segment is a non-empty substring of its passage |
| Grounding.FoldKeepsParts | apps/api/evidencedesk_api/answering.py:234-235 | folding keeps substrings |
| Grounding.BuiltFailsOnlyOnTrust | apps/api/evidencedesk_api/answering.py:1110-1223 | an answer located in, quoted from and citing given passages passes every check of the validator but trust |
| Grounding.FlawlessExactlyWhen | apps/api/evidencedesk_api/answering.py:1110-1223 | an answer passes the validator exactly when it passes it under a detector that rejects nothing and shows no untrusted instruction and no blocked excerpt |
| GroundedAnswers.AcceptedExactlyWhen | apps/api/evidencedesk_api/answering.py:1110-1223 | an answer passes exactly when it is coherent, names known chunks, holds no untrusted instruction, and is an empty abstention or rests on an excerpt of a known and cited chunk at its location, with answer, fields and citations from there |
| EvidenceReading.PartsAreCut | apps/api/evidencedesk_api/answering.py:646-657 | a line is cut at every terminator before a capital or digit, and no word is lost |
| EvidenceReading.PartsAreCutRight | apps/api/evidencedesk_api/answering.py:646-657 | every part but the last ends in a terminator, every part but the first starts with a capital or digit |
| EvidenceReading.BulletsAreDropped | apps/api/evidencedesk_api/answering.py:648-650 | leading bullets and whitespace are dropped from a line and nothing else |
| EvidenceReading.SegmentsKeepWords | apps/api/evidencedesk_api/answering.py:646-657 | the segments of a passage hold every word of its lines in order |
| EvidenceReading.SupportIsWeighted | apps/api/evidencedesk_api/answering.py:1049-1056 | support is the weighted sum of coverage, similarity, value and relation; its cap never acts |
| EvidenceReading.VerdictsComparePolarity | apps/api/evidencedesk_api/answering.py:886-895 | yes/no values differ exactly when one says yes and the other no |
| EvidenceReading.ValuesCompareFolded | apps/api/evidencedesk_api/answering.py:1447-1456 | other values differ exactly when their folded texts do |
| Answering.SupportIsUnit | apps/api/evidencedesk_api/answering.py:1049-1056 | support scores lie between 0 and 1 |
| Answering.FindEvidence | apps/api/evidencedesk_api/answering.py:1352-1419 | the three nested loops evaluate the readable evidence texts in order |
| Decision.FoundInFits | apps/api/evidencedesk_api/answering.py:1352-1419 | everything found is a substring of a passage in scope, with a value that fits it |
| Decision.AssessPassages | apps/api/evidencedesk_api/answering.py:1236-1308 | the loop gives one assessment per passage |
| Decision.AnswerableExactlyWhen | apps/api/evidencedesk_api/answering.py:1243-1256 | a passage is answerable exactly when one of its direct rows reaches the threshold |
| Decision.AnswerQuestion | apps/api/evidencedesk_api/answering.py:1310-1494 | the whole of `answer`, with every early exit |
| Decision.EngineIsGrounded | apps/api/evidencedesk_api/answering.py:1310-1494 | for any question and passages the answer built passes every check of the validator but trust, and the engine returns an early abstention, fails on a blank question, or returns the built answer unless it is no abstention and would show an untrusted instruction |
| DecisionOutcomes.EveryQuestionIsAnswered | apps/api/evidencedesk_api/answering.py:1310-1351 | exactly the unsafe questions are refused; each other early ending has its own condition and message; every other question gets the answer built from the passages in scope |
| DecisionOutcomes.ScopeKeepsOrder | apps/api/evidencedesk_api/answering.py:1337 | the passages in scope are those of the allowed documents, in their order |
| DecisionOutcomes.AllWork | apps/api/evidencedesk_api/answering.py:1352-1383 | the loops evaluate exactly the segments that are neither blocked nor headings, or their date clauses |
| DecisionOutcomes.BuiltExactlyWhen | apps/api/evidencedesk_api/answering.py:1420-1494 | the answer is that of the preferred text that supports a value, ambiguous exactly when the kind can conflict and two supported values differ, partial exactly when no text supports a value but one touches the relation, and otherwise an abstention |
| DecisionOutcomes.EveryPassageIsAssessed | apps/api/evidencedesk_api/answering.py:1236-1308 | every passage in scope is assessed, in order, by exactly the texts read in it |
| Decision.StatusAgreesWithAssessments | apps/api/evidencedesk_api/answering.py:1420-1494 | the status is answered or ambiguous exactly when some passage is assessed as answerable |
| Decision.DecisionExactlyWhen | apps/api/evidencedesk_api/answering.py:1420-1494 | for kinds that can conflict the status is ambiguous exactly when two supported candidates differ; an answer is that of a candidate no other exceeds |
| Decision.AnsweredHasNoConflict | apps/api/evidencedesk_api/answering.py:1420-1494 | an answered boolean, date, amount, duration or severity question has no two supported candidates that differ |

## Left out

- PDF parsing, file storage, Redis and ARQ, SQLAlchemy, HTTP, the web client, metrics and logging: only their outcomes appear, as parameters and steps.
- Timestamps other than the deletion time, user and correlation ids: they are written and never decided on.
- Commits whose outcome is unknown and files left behind by a delete: the repository says deleting the file and the row is not atomic. A worker that dies between transactions is the step `Crash`; progress is claimed without it.
- Lifecycle protocol: transactions are atomic steps of a state machine over row values; the methods of `Session` are proved against the same functions one transaction at a time. The queue's one-job-per-document rule is the condition `Disciplined`.
- Redaction, embedding and extraction of a run: one outcome each, raising before or after chunking; redaction is taken to be done by the parser step.
- Plain-text and PDF page splitting, and the size and page limits of `parse_document`: single checks.
- `hybrid_rerank`: its candidate pool depends on the limit, so the prefix property is not meant for it.
- Scoring of candidates in `_candidate_scores`, and which documents `_scope_ranked` allows: sums and set tests over token sets; the ranking and the engine are proved for any scores and any allowed set.
- Regular expressions of the answer engine and the trust detector: parameters, with `Answering.Contract` as what is used of them. The folding in `_fold` and `_normalize` is a function of single characters, which is what casefold, NFKD and dropping everything but ASCII amount to.
- The fixed messages of the engine are named, not spelled out.
- Floating point: latencies, scores, rates and their rounding are exact reals with ties to even. Chunk ids, document ids and file names are strings without normalisation.
- The order in which the runner sorts expected retrieval locations: the recalculator only tests membership.
- Wrong-typed JSON in a raw artifact: the recalculator's type checks are left out, its value checks are modelled. A manifest case that is not an object is not modelled. JSON objects are maps with string keys.
- Extraction targets, document entries and top-level fields in `validate_manifest`: independent field checks; the case and citation loops are modelled.
- Money numbers are modelled for ASCII digits; the surrounding search for currency pairs is not, so the comparison of money takes the set of amounts of a text as a parameter. The search for dates inside a text is a parameter likewise.
- Dataset generators, model downloads, tokens, roles, freezing and attestation of holdouts: hashes, field equality or I/O.
- Runner.TryCase: the `try` block ends where the outcome says it does; what raises inside it is a parameter.
