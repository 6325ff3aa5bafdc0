# A verified model of the code-review pipeline

The repository reviews a diff with many specialist workers: leaves of a review wiki are activated, the
picked ones are cut into units, a thread pool dispatches the units through unreliable language-model
calls, their findings are deduplicated and merged, and eight gates and a coverage rule turn them into a
verdict. This project models that path in Dafny and proves what it promises, for every input, every
answer the calls may give, every interleaving of the threads and every path through the state machine.

| module | what it models |
|---|---|
| `Activation`, `Glob`, `Leaves`, `ActivationTheorems`, `GlobTheorems` | the activation gate and the glob-to-regex translation it matches with |
| `Planner`, `Merger`, `Trim`, `PlannerTheorems` | the batch planner, the dispatch loop that replays batches, the merger and its size guard |
| `Limiter`, `CallTree`, `TreeAccount`, `Dispatch` | the adaptive permit counter, one unit's retries, back-off and overflow splitting, and what its row says |
| `Pool`, `PoolProofs`, `PoolWork`, `PoolRuns` | the thread pool as a transition system, one critical section per step |
| `Dedup`, `DedupTheorems`, `TitleTheorems` | the dictionary of findings, its keys, and whom it credits |
| `SemanticMerge`, `MergeTheorems`, `Similarity` | the union-find merge, and when two findings are alike |
| `Collect`, `CollectTheorems`, `CollectOrder`, `CollectHandler` | sorting and tagging, and the collection handler |
| `Ranking`, `RankingTheorems`, `Coverage`, `CoverageTheorems` | rank decisions, and the two-reviewer rule |
| `Readiness`, `VerdictTheorems`, `GateTheorems` | the gates, who answers to them, and what GO means |
| `CoverageFloor`, `FloorTheorems` | the deterministic picks that replace an empty trim |
| `Fsm`, `FsmTheorems`, `ReviewRun` | the declared states and transitions, the driver that walks them, and the verdict a run concludes |
| `Pipeline`, `Hearing` | plan, pool, loop, merge, collection and verdict put together, and every report followed from its answer to the verdict |
| `Markdown`, `MarkdownTheorems` | table cells of the report |
| `Util`, `Sorting`, `Text`, `Findings` | shared vocabulary |

Code that works by changing things step by step is modelled by methods with loops, arrays and classes
(`AdaptiveLimiter`, `RunnerStats`, the `parent` array, the outputs trimmed in place); each is proved equal to
a specification function or predicate, and the theorems are about those. The pool's adversary is a call
tree per unit: the tree says what every call of that unit answers, and every theorem quantifies over
all valid trees and all schedules. `Dispatch.DispatchOne` produces such a tree from calls whose answers
are unconstrained, so no behaviour of the retry loop is left out by the choice of trees.

The functions that both a method and its specification call, such as the gate table, the similarity test,
the cutting of braces or the state table, are described a second time by what they mean for a whole path,
leaf, finding, run or verdict: `TreeAccount`, `CollectHandler`, `Similarity`, `TitleTheorems`, `GlobTheorems`,
`GateTheorems`, `CoverageTheorems` and the other modules named after theirs hold these statements.

Some theorems are stated with the exact condition under which the code keeps a promise:

- dedup keys are double-colon-joined strings, so different files can share one
  (`DedupTheorems.KeysCollide`). Coverage credit survives whoever reported what exactly when no two reports
  on different files share a key (`DedupTheorems.CreditKeptIff`, `CollectTheorems.CollectionCreditKeptIff`,
  `VerdictTheorems.CoverageKeptIff`), and on the same condition collection never turns a NO-GO into a GO
  (`VerdictTheorems.NoGoKeptIff`);
- the dictionary ignores the order of findings exactly when the best findings under a key agree and no
  unnamed specialist's best finding has a named rival (`DedupTheorems.OrderIrrelevantIff`); the sorted list
  ignores it exactly when, besides, no two best findings of different keys tie on severity, file, line and
  title (`CollectTheorems.SortOrderIrrelevantIff`), and so does the final list as long as no two findings of
  different keys are related (`CollectOrder.CollectionOrderIrrelevantIff`); merging can hide a tie
  (`CollectOrder.MergedTieHidesOrder`). Only line 0 can tie, with no line at all
  (`CollectTheorems.NoLineZeroNoTies`, `CollectTheorems.LineZeroSpoilsOrder`,
  `DedupTheorems.UnnamedSourceSpoilsOrder`);
- a split unit is reported completed whatever became of its halves, so completed means reviewed
  exactly when no part failed (`CallTree.SplitReviewedIff`, `CallTree.FailuresHideFiles`, `CallTree.CompletedUnreviewed`);
- the limit stays within the configured maximum exactly when the minimum was configured below it
  (`Limiter.CeilingHoldsIff`); a penalty may drop the limit below the calls already in flight
  (`PoolRuns.LimitOvertaken`), so what is proved of every run is that a permit is only granted below the
  limit in force, that such a penalty is the only step that puts calls above it, and that the maximum
  bounds the calls in flight
  (`PoolProofs.GrantsRespectLimit`, `PoolProofs.LimitKeptIff`, `PoolProofs.ConcurrencyBounded`);
- slices respect the token budget exactly when it is a whole number of files (`Planner.BudgetExactIff`);
- the loop's cap of 64 iterations is where merging starts to fail (`Merger.DrainAndMerge`);
- globs mean what they say exactly on paths without a newline (`Glob.MeaningKeptIff`), and table rows read
  back exactly when their cells hold none (`Markdown.RowRoundTripIff`).

Where the code and its documentation disagree the model follows the code. The comments at
code_review/handlers.py:2798-2803 and code_review/spec.py:1404-1408 say that a degraded run lowers the verdict;
the verdict handler never reads that flag. A run through a verifier impasse ends GO exactly when no picked
leaf that belongs to a gate stands behind a critical or important finding of the ranked list, which is empty
unless the ranker was the state that got stuck (`ReviewRun.StuckRunConcludes`, `ReviewRun.ImpasseAfterCollectionIff`);
so an impasse anywhere earlier always ends GO (`ReviewRun.EarlyImpasseIsGo`, `ReviewRun.DegradedRunEndsGo`).
The highest concurrency that the run statistics report is always the configured maximum
(`Limiter.StatsAreHistoryExtremes`). A worker call that overflows is counted among the overflow splits
although nothing is split (`Dispatch.CallWorkerResilient`). The rank step takes a primary threshold of 0 for
an absent one, the collection step does not (`Ranking.ApplyRankDecisions`, `CollectHandler.CollectFindings`).

## Model

| member | source | states |
|---|---|---|
| Limiter.AdaptiveLimiter.constructor | code_review/runner.py:269-276 | a fresh limiter starts at its ceiling with nothing in flight and both statistics at the ceiling |
| Limiter.AdaptiveLimiter.TryAcquire | code_review/runner.py:278-282 | a permit is granted exactly when fewer are in flight than the limit allows, and nothing else changes |
| Limiter.AdaptiveLimiter.Release | code_review/runner.py:284-287 | one permit less in flight, limit and statistics untouched |
| Limiter.AdaptiveLimiter.Penalize | code_review/runner.py:289-293 | the limit halves, never below the minimum, and the lowest limit seen follows it |
| Limiter.AdaptiveLimiter.Reward | code_review/runner.py:295-300 | the limit grows by one up to the ceiling, and the highest limit seen follows it |
| Limiter.AdjustKeepsSound | code_review/runner.py:289-300 | no history of penalties and rewards takes the limit out of its bounds |
| Limiter.CeilingHoldsIff | code_review/runner.py:269-300 | the limit stays within the configured maximum under every history exactly when the minimum, at least one, does not exceed it |
| Limiter.PenaltiesHalve | code_review/runner.py:289-293 | k penalties in a row leave the limit divided by two to the k, or the minimum |
| Limiter.RewardsClimb | code_review/runner.py:295-300 | k successes in a row raise the limit by k, or to the ceiling |
| Limiter.StatsAreHistoryExtremes | code_review/runner.py:289-300 | the lowest statistic is the lowest limit of the history, the highest is always the configured ceiling |
| CallTree.TerminalsCoverUnit | code_review/runner.py:303-389 | the files of the pieces a unit was split into, left to right, are exactly the unit's files |
| CallTree.FindingsInOrder | code_review/runner.py:355-372 | a unit's findings are those of its successful pieces, in file order |
| CallTree.EndsBalance | code_review/runner.py:336-389 | for every unit, dispatched plus failed is one more than the splits |
| CallTree.CostConserved | code_review/runner.py:110-155 | a unit's result row carries exactly the tokens and costs charged to the run for it, however deep its splits |
| CallTree.NodesBound | code_review/runner.py:303-312 | a unit of n files splits into at most 2n-1 pieces and their parents |
| CallTree.CallsPerNode | code_review/runner.py:334-380 | no piece is called more than the retries plus one |
| CallTree.WorkBound | code_review/runner.py:303-389 | a unit of n files makes at most (R+1)(2 max(n,1) - 1) calls |
| CallTree.BackoffClosedForm | code_review/runner.py:373-380 | k back-offs add up to base times (2^k - 1) |
| CallTree.SleepBound | code_review/runner.py:334-380 | a unit sleeps at most base times (2^R - 1) for every node of its split tree |
| CallTree.FailuresHideFiles | code_review/runner.py:349-372 | every failed piece of a unit costs at least one file, or is the only call of a unit without files; without failures all files were reviewed |
| CallTree.SplitReviewedIff | code_review/runner.py:354-372 | a split unit is always reported completed; all its files were reviewed exactly when none of its pieces failed |
| CallTree.CompletedUnreviewed | code_review/runner.py:349-372 | every unit of two files or more can end that way: reported completed with half its files given up |
| TreeAccount.OutputAccounts | code_review/runner.py:330-389 | what any unit's row says: an answer's own id, status and skip reason, the leaf's id and completed where it is silent; failed exactly for giving up, a single file that overflows, or the specialist's own word, with the reason; the findings, tier and stamped meters of its successful pieces |
| TreeAccount.EndsCounted | code_review/runner.py:331-383 | each piece that answered counts as dispatched, each other as failed, and the splits are one fewer than the pieces |
| TreeAccount.RateLimitsAreOccurrences | code_review/runner.py:339-347 | the rate-limit counter moves once for every rate limit |
| TreeAccount.HalvesBalanced | code_review/runner.py:303-312 | a unit of two files or more is cut in order into halves that differ by at most one file, and no other unit is cut |
| TreeAccount.DepthLogarithmic | code_review/runner.py:303-312 | splits nest no deeper than the logarithm of the number of files, rounded up |
| Dispatch.RunnerStats.Bump | code_review/runner.py:102-107 | one counter rises by the amount, no other statistic moves |
| Dispatch.RunnerStats.AccumulateCost | code_review/runner.py:110-128 | each token and cost total rises by what the output carries, an absent figure counting as nothing |
| Dispatch.DispatchOne | code_review/runner.py:315-389 | run alone and whatever the calls answer, the retry loop ends, and its output, calls, sleeps and statistics, and the limiter it leaves behind, are those of a valid call tree of the unit |
| Dispatch.TreeHistory | code_review/runner.py:289-380 | the limiter a unit leaves behind is the one after a penalty for each of its rate limits and a reward for each success, in their order |
| Dispatch.RetryFaults | code_review/runner.py:334-380 | the loop on the attempt counter stops at the first answer that is no retryable fault, or when the retries are spent |
| Dispatch.CallUnderPermit | code_review/runner.py:336-340 | the permit taken for a call is back after it, whatever it raised |
| Dispatch.DispatchHalves | code_review/runner.py:349-372 | after an overflow both halves are dispatched and their findings and costs joined |
| Dispatch.CallWorkerResilient | code_review/runner.py:234-261 | a worker is called at most R+1 times, only after retryable replies, sleeps at most base times (2^R - 1), and every reply is counted |
| Dispatch.WorkerSleepBound | code_review/runner.py:246-261 | the back-offs before any attempt within the budget fit the sleep bound |
| Dispatch.LogCountsReplies | code_review/runner.py:234-261 | the counters a worker call moves are its rate limits and overflows, one each |
| PoolProofs.ResumeFacts | code_review/runner.py:355-372 | handing a half's result to the pending recursion starts the other half or yields the whole unit's output |
| PoolProofs.ResumeOwes | code_review/runner.py:355-372 | doing so neither loses nor repeats calls, counts or costs of the halves still to come |
| PoolProofs.EveryStepWell | code_review/runner.py:264-389 | what any one step of any thread does to permits, wake-ups, charges, results and remaining work |
| PoolProofs.StepKeepsControl | code_review/runner.py:264-389 | every step keeps: permits held equal calls in flight, limit within bounds, nobody asleep with a free permit, results correct |
| PoolProofs.StepKeepsLedger | code_review/runner.py:102-128 | every step keeps: totals so far plus what is still owed equal the totals before the pool plus what the units cost |
| PoolProofs.GrantsRespectLimit | code_review/runner.py:278-282 | a step that raises the number in flight leaves it within the limit |
| PoolProofs.LimitKeptIff | code_review/runner.py:278-300 | a step takes the calls in flight above the limit in force exactly when it is a penalty that halves the limit below them |
| PoolRuns.LimitOvertaken | code_review/runner.py:278-300 | such a step is reachable: with a maximum of n >= 4, a minimum of at most n/2, n calls in flight and the first one rate-limited, n-1 calls are in flight under a limit of n/2 |
| PoolRuns.StatsOfRun | code_review/runner.py:417-418 | after any schedule the lowest-limit statistic is the least limit that was in force during it, and the highest is the configured maximum |
| PoolProofs.StepBurnsFuel | code_review/runner.py:334-389 | every step lowers a measure of the work left, so no schedule runs for ever |
| PoolProofs.RunKeepsInvariant | code_review/runner.py:392-419 | all of this holds after any schedule, and the length of a schedule is bounded beforehand |
| PoolProofs.NoDeadlock | code_review/runner.py:278-287 | while a unit is unfinished some thread can move: wake-ups are not lost and permits are returned before sleeping or recursing |
| PoolProofs.ConcurrencyBounded | code_review/runner.py:264-300 | at no point of any run are more than the maximum of calls inside the hook |
| PoolProofs.FinishingSchedule | code_review/runner.py:392-419 | from every reachable state the pool can be driven to the end |
| PoolProofs.PoolOutcome | code_review/runner.py:392-419 | any complete run gives every unit exactly the output its answers determine; whatever the totals were before, dispatched + failed grow by splits + units, and each token and cost total by the sum over the result rows |
| PoolProofs.PoolRows | code_review/runner.py:392-419 | after any complete run every unit's row tells how its own dispatch went, in the terms of the answers |
| PoolRuns.EveryMetricCounts | code_review/runner.py:102-128 | every counter and every token and cost total is among the statistics this is proved of |
| PoolWork.PoolWorkDone | code_review/runner.py:315-419 | over any complete run the hook is entered, and back-off slept, exactly as much as the answers demand: at most R+1 calls and 2^R - 1 units of back-off for each node the files allow |
| PoolWork.SleptInUnits | code_review/runner.py:373-380 | what a unit sleeps is its units of back-off, each one base long |
| Glob.NextPart | code_review/handlers.py:457-488 | one turn of the translation loop recognises the construct at the index |
| Glob.CompileGlob | code_review/handlers.py:452-491 | the index loop yields the construct-by-construct translation |
| Glob.CompiledMeansGlob | code_review/handlers.py:452-495 | on newline-free paths the compiled pattern accepts exactly what the glob means read directly |
| Glob.MeaningKeptIff | code_review/handlers.py:461-495 | a path is matched as meant by all globs exactly when it holds no newline |
| Glob.DepthKept | code_review/handlers.py:469-476 | without double stars and braces a glob matches only paths with as many slashes |
| Glob.CompiledDepthKept | code_review/handlers.py:469-495 | the same for the compiled matcher |
| GlobTheorems.CommasCut | code_review/handlers.py:483-484 | the alternatives between braces hold no comma and joined by commas give the text back |
| GlobTheorems.CommasJoined | code_review/handlers.py:483-484 | and comma-free pieces joined by commas are cut into those pieces |
| GlobTheorems.BracesExpand | code_review/handlers.py:477-488 | on every path a glob with braces matches what either part of its alternatives matches |
| GlobTheorems.PlainGlob | code_review/handlers.py:489-490 | without special characters a glob matches the one path it spells |
| GlobTheorems.AnyDirectory | code_review/handlers.py:460-464 | a leading double star and slash skip any directories and nothing else |
| GlobTheorems.AnyFile | code_review/handlers.py:460-472 | with a star after them the rest of the glob has to match some end of the path |
| GlobTheorems.DirectoryGlob | code_review/handlers.py:465-468 | a directory followed by a slash and a double star matches exactly what is below it |
| GlobTheorems.EndingGlobs | code_review/handlers.py:452-495 | the usual leaf glob for file endings matches exactly the paths with one of the endings |
| Activation.EvaluateActivation | code_review/handlers.py:575-635 | the two passes activate exactly the ids reachable by escalation from leaves that fire, in id order, each with its signals |
| Activation.EscalationPasses | code_review/handlers.py:604-628 | iteration stops at a set closed under escalation; the cap on the passes never cuts it short |
| Activation.LeastFixedPoint | code_review/handlers.py:585-635 | the ids escalation reaches hold the firing leaves and are closed under escalation, and are the least set that is |
| Activation.OrderIrrelevant | code_review/handlers.py:585-635 | with distinct ids the order of the leaves does not matter |
| ActivationTheorems.SignalsTell | code_review/handlers.py:575-635 | an activated leaf carries exactly the signals that hold of it, and the escalation signal exactly when none does |
| ActivationTheorems.WhatWakesALeaf | code_review/handlers.py:498-510 | a leaf with an id is activated when a non-empty glob of it matches a changed path, a keyword or a structural signal fires, or a leaf it escalates from is activated |
| ActivationTheorems.WokenBySomething | code_review/handlers.py:585-628 | and nothing else activates an id |
| Planner.CeilBounds | code_review/handlers.py:2305-2308 | the ceiling division is the least integer whose product reaches the numerator |
| Planner.MatchedMeans | code_review/handlers.py:2311-2344 | a scoped leaf reviews each changed path some glob of it matches, once |
| Planner.LeafFileSet | code_review/handlers.py:2311-2344 | a leaf without globs reviews all changed paths, any other the matching ones |
| PlannerTheorems.FilesOfLeaf | code_review/handlers.py:2311-2344 | without file globs a leaf reviews every changed file, otherwise those that one of its non-empty globs matches |
| Planner.SliceUnits | code_review/handlers.py:2379-2415 | the slicing loop produces the leaf's units |
| Planner.UnitsPartition | code_review/handlers.py:2379-2415 | a leaf becomes at least one unit; its slices are numbered from one, no more than announced, non-empty unless the leaf has no files, and concatenate to its files |
| Planner.SliceBudget | code_review/handlers.py:2391-2408 | a slice of c files satisfies (c-1) * 500 < budget, and c * 500 <= budget when 500 divides the budget |
| Planner.BudgetExactIff | code_review/handlers.py:2391-2408 | every slice fits the budget exactly when 500 divides it |
| PlannerTheorems.SlicesAnnounced | code_review/handlers.py:2388-2415 | at 500 tokens a file, files that fit the limit are one unit of one, and others announce the least number of slices that could hold them |
| Planner.PackBatches | code_review/handlers.py:2418-2424 | the packing loop cuts the unit list at multiples of the batch size |
| Planner.BatchesPack | code_review/handlers.py:2418-2424 | the batches flatten to the units, none is empty, and all but the last are full |
| Planner.PlanSpecialistBatches | code_review/handlers.py:2347-2432 | the plan for any leaves, paths, tier and arguments, with the defaults the handler uses |
| PlannerTheorems.DefaultsAre | code_review/handlers.py:2281-2368 | a positive batch size or token limit given counts; else three units a batch for trivial and sensitive, five for full, four otherwise, and 80000 tokens a unit |
| PlannerTheorems.DefaultPlan | code_review/handlers.py:2347-2426 | by default every batch but the last holds exactly that many units, and a leaf of up to 160 files is one unit |
| Planner.KeysDistinct | code_review/handlers.py:2373-2415 | with distinct leaf ids no two units share a (leaf, sub-index) key |
| Planner.EveryFilePlanned | code_review/handlers.py:2373-2426 | every file of every picked leaf is in one of its units |
| Merger.DrainLoop | code_review/runner.py:566-589 | the loop replays batches 1, 2, ... in order, until the last one planned or the cap |
| Merger.MergeSpecialistOutputs | code_review/handlers.py:2592-2790 | the merger's two errors, the files it finds covered, and its result: last output per key in first-seen order, as the size guard leaves it |
| Merger.FileAllShape | code_review/handlers.py:2631-2649 | the output dictionary holds exactly the keys met, each once, with an output filed under it |
| Merger.LastFiled | code_review/handlers.py:2631-2649 | under each key stands the last output filed there |
| Merger.LoopReplaysBatches | code_review/runner.py:576-588 | the iterations put end to end are the planned units' outputs |
| Merger.DrainAndMerge | code_review/handlers.py:2592-2790 | within the cap merging never errs, whatever the pool answered: one output per planned key, the files found covered are the planner's, and with distinct leaf ids the list is the units' outputs as the size guard leaves them; beyond the cap it always reports the units left behind |
| Merger.UnitOutputsTell | code_review/runner.py:576-586 | a unit has the output filed for it, and one nobody filed stands as failed with no result |
| Merger.LeftBehind | code_review/handlers.py:2651-2685 | a batch the loop did not reach makes the loop-exited-early error certain |
| Trim.TrimLowest | code_review/handlers.py:2556-2589 | one pass drops the least severe finding of the first largest output, or nothing when that would not shrink it |
| Trim.TrimToBudget | code_review/handlers.py:2740-2766 | for every budget the loop leaves exactly the greedy trimming, its running aggregate is the true sum, and its cap on the passes never binds |
| Trim.TrimmedWell | code_review/handlers.py:2740-2766 | no output is removed, each is short of some of its least severe findings only, and the guard stops within budget or exhausted |
| Trim.NoDropBeyondNeed | code_review/handlers.py:2740-2766 | what fits is left alone, and before the last finding dropped the list was still over budget |
| Trim.NothingSaved | code_review/handlers.py:2556-2589 | where giving up a finding of the first largest output saves nothing, nothing is given up |
| Trim.ShrunkKeepsSevere | code_review/handlers.py:2541-2589 | what a unit loses ranks no higher in severity than what it keeps |
| Trim.MildestGoFirst | code_review/handlers.py:2541-2573 | no critical finding is given up while a milder one is kept, nor an important one while a minor one is, in any case |
| Trim.ExhaustedMeansBare | code_review/handlers.py:2556-2589 | when dropping a finding always shrinks an output, exhausted means a largest output has none left |
| Dedup.FoldSpecialists | code_review/handlers.py:960-988 | the dictionary loop over completed specialists computes the fold of their findings |
| Dedup.FoldShape | code_review/handlers.py:960-988 | one record per key met, in order of first appearance, each holding a finding filed under its key |
| Dedup.FlaggedByReporters | code_review/handlers.py:973-988 | a record is flagged by exactly the specialists that reported under its key |
| Dedup.WinnerIsFirstBest | code_review/handlers.py:830-837 | the surviving finding has the highest severity, then the least specialist id, then came first, unless an unnamed specialist's best finding has a named rival |
| DedupTheorems.KeyDeterminesPlace | code_review/handlers.py:823-827 | for colon-free file names equal keys mean equal file, line and normalised title, and conversely |
| TitleTheorems.NormalisedIsWords | code_review/handlers.py:817-820 | a normalised title is the title's words in small letters, one blank apart |
| TitleTheorems.SameTitleIff | code_review/handlers.py:817-820 | two titles count as the same exactly when they have the same words in small letters |
| TitleTheorems.SameKeyIff | code_review/handlers.py:823-827 | where file names hold no colon, two reports share a key exactly when they name the same file and line and have the same title |
| DedupTheorems.KeysCollide | code_review/handlers.py:823-827 | a colon at the end of a file name makes its key equal to that of another file |
| DedupTheorems.ColonFreeFilesAreSeparated | code_review/handlers.py:823-827 | colon-free file names are never mixed up under one key |
| DedupTheorems.FoldKeepsCredit | code_review/handlers.py:960-988 | while keys tell files apart the (file, specialist) pairs are kept exactly |
| DedupTheorems.CreditKeptIff | code_review/handlers.py:960-988 | for a list of reports the pairs are kept whoever reported what exactly when no two reports on different files share a key |
| DedupTheorems.CreditKeptIffOneEach | code_review/handlers.py:960-988 | for specialists with one finding each it is their own keys that decide |
| DedupTheorems.FoldKeepsBlocking | code_review/handlers.py:830-837 | whoever reported a critical or important finding stays behind one |
| DedupTheorems.OrderIrrelevantIff | code_review/handlers.py:830-988 | shuffling the findings never changes the records exactly when the best under each key agree and no unnamed best has a named rival |
| DedupTheorems.NamedAndOnePerKeySuffice | code_review/handlers.py:830-988 | it is enough that specialists are named and none reports twice under one key |
| DedupTheorems.OnePerKeyBestsAgree | code_review/handlers.py:830-837 | it is enough that no specialist reports twice under one key |
| DedupTheorems.UnnamedSourceSpoilsOrder | code_review/handlers.py:835-988 | with an unnamed specialist the order of the others decides the winner |
| SemanticMerge.RelatedSymmetric | code_review/handlers.py:912-922 | being related does not depend on which finding is looked at first |
| Similarity.WordsAreRuns | code_review/handlers.py:880-882 | the words compared are the longest runs of small letters, digits and underscores |
| Similarity.RelatedIff | code_review/handlers.py:912-923 | two findings of one file are related when they share a known line, or at least as many words of title and description as they do not share |
| Similarity.TwiceTheWords | code_review/handlers.py:880-884 | a finding and one that says all of it are related up to twice as many words, and no further |
| Similarity.LikeFindingsMeet | code_review/handlers.py:887-951 | two findings of one file with the same known line or the same words become one record |
| Similarity.StrangersStay | code_review/handlers.py:887-951 | a list in which no two findings of one file share a known line or a word is left alone |
| SemanticMerge.Find | code_review/handlers.py:904-908 | following parents with path halving ends at the root and changes nobody's root |
| SemanticMerge.Union | code_review/handlers.py:923-923 | linking two roots joins exactly their two classes |
| SemanticMerge.JoinRelated | code_review/handlers.py:910-923 | after the double loop two findings share a root exactly when a chain of related findings joins them |
| SemanticMerge.GroupByRoot | code_review/handlers.py:925-927 | the dictionary of groups lists each root once, in order of first member, with its members in order |
| SemanticMerge.MergeGroup | code_review/handlers.py:929-951 | the loop over a group's members builds the group's record |
| SemanticMerge.SemanticMerge | code_review/handlers.py:887-952 | the merge returns one record per class of linked findings, in order of first member |
| MergeTheorems.SameGroupIffLinked | code_review/handlers.py:910-927 | two findings are merged exactly when they are linked |
| MergeTheorems.GroupsStayInOneFile | code_review/handlers.py:912-914 | a group never crosses files |
| MergeTheorems.GroupSizesSum | code_review/handlers.py:925-927 | the group sizes add up to the number of findings |
| MergeTheorems.Representative | code_review/handlers.py:935-951 | a record is one of its group's members with the group's highest severity, strongest confidence and all its flags |
| Similarity.RecordOfGroup | code_review/handlers.py:929-951 | a group's record is the first of its most severe members of the highest confidence, with their number and the group's highest confidence; a lone finding is unchanged |
| MergeTheorems.MergeKeepsCredit | code_review/handlers.py:887-952 | merging keeps the (file, leaf) pairs exactly |
| MergeTheorems.MergeKeepsBlockingLeaves | code_review/handlers.py:935-949 | merging loses no leaf behind a critical or important finding |
| MergeTheorems.RepresentativesUnrelated | code_review/handlers.py:887-952 | representatives of different groups are never related |
| MergeTheorems.MergeIdempotent | code_review/handlers.py:887-952 | a second pass changes nothing |
| MergeTheorems.UnchangedIffUnrelated | code_review/handlers.py:887-952 | a list is left alone exactly when no two of its findings are related |
| CollectHandler.CollectFindings | code_review/handlers.py:955-1048 | the handler returns the sorted, merged, sorted and tagged records with their counts; where file names hold no colon every completed specialist is credited with exactly the files it reported on; whoever reported something critical or important stands behind such a finding; nothing is invented, severe findings come first, and a finding is primary by its confidence, else by severity and agreement |
| CollectHandler.StreamIff | code_review/handlers.py:960-971 | exactly the findings of completed specialists are collected, under their ids and dedup keys |
| CollectHandler.StreamOfOne | code_review/handlers.py:961-971 | one specialist contributes all it found, in order, if it completed, and nothing otherwise |
| CollectHandler.StreamAppend | code_review/handlers.py:960-971 | the specialists are heard one after the other |
| Collect.TagEach | code_review/handlers.py:1025-1036 | corroboration and the primary flag are set in place on every record |
| CollectTheorems.SortOrderIrrelevantIff | code_review/handlers.py:990-1006 | shuffling the findings never changes the sorted records exactly when bests agree, no unnamed best has a named rival and no two bests of different keys tie in the sort |
| CollectTheorems.CollectionOrderIrrelevant | code_review/handlers.py:955-1048 | when bests agree, no unnamed best has a named rival and none tie, permuting the specialists leaves the final list identical |
| CollectOrder.CollectionOrderIrrelevantIff | code_review/handlers.py:955-1048 | where no two findings of different keys are related, shuffling the findings never changes the final list exactly when bests agree, no unnamed best has a named rival and no two bests tie |
| CollectOrder.MergedTieHidesOrder | code_review/handlers.py:935-1013 | a related tie of unequal confidence is merged alike in either order, so there the condition is not necessary |
| CollectTheorems.NoLineZeroNoTies | code_review/handlers.py:998-1006 | without a finding at line 0 no two keys tie |
| CollectTheorems.LineZeroSpoilsOrder | code_review/handlers.py:998-1006 | a finding at line 0 and its twin without a line come out in the order they were reported |
| CollectTheorems.CollectionKeepsCredit | code_review/handlers.py:955-1048 | while keys tell files apart, the (file, leaf) pairs of the final list are those of the raw findings |
| CollectTheorems.CollectionCreditKeptIff | code_review/handlers.py:955-1048 | they are, whoever reported what, exactly when no two reports on different files share a key |
| CollectTheorems.CollectionKeepsBlocking | code_review/handlers.py:955-1048 | from raw findings to the final list no leaf loses its blocking finding |
| CollectTheorems.CollectionIsNormal | code_review/handlers.py:998-1013 | the final list is sorted, and merging it again would change nothing |
| Ranking.ApplyRankDecisions | code_review/dispatch.py:332-366 | the loops keep exactly the findings not dropped by the last decision naming them, rescored, and count them by lower-cased severity |
| RankingTheorems.LastForIs | code_review/dispatch.py:346-350 | what counts for a finding is the last decision naming its index |
| RankingTheorems.DroppedIff | code_review/dispatch.py:353-356 | a finding is left out exactly when that decision says drop |
| RankingTheorems.FindingRanked | code_review/dispatch.py:353-362 | any other is scored by it: its confidence and flag where given, else 0.9, 0.7, 0.25 or 0.5 by severity in any case, and the flag by the threshold, 0.75 if none or zero is given |
| RankingTheorems.CountsTell | code_review/dispatch.py:352-366 | the counts are the findings per severity in any case, and there is no other key |
| Ranking.SurvivorsUntouched | code_review/dispatch.py:353-362 | a finding leaves only by an explicit drop; the others keep their order and all fields but the two scores |
| Ranking.PartialAnswerLosesNothing | code_review/dispatch.py:335-362 | a finding no decision names survives |
| Ranking.RankingOnlyRemoves | code_review/dispatch.py:353-362 | ranking adds no credit and no blocking leaf, and those it removes were explicitly dropped |
| Coverage.VerifyCoverage | code_review/handlers.py:1118-1194 | one row per changed file in file order with exactly its reviewers, and the files with fewer than two |
| Coverage.CreditFindings | code_review/handlers.py:1131-1143 | source (a): the flags of findings on changed files, added in place |
| Coverage.CreditScopes | code_review/handlers.py:1145-1165 | source (b): leaves in scope, everywhere without an activation block, nowhere with an empty list |
| Coverage.CreditRescues | code_review/handlers.py:1167-1177 | source (c): rescues of changed files |
| Coverage.ViolatedIff | code_review/handlers.py:1186-1194 | the rule is violated exactly when a changed file has fewer than two reviewers |
| CoverageTheorems.ReviewersAre | code_review/handlers.py:1131-1177 | a reviewer of a file reported on it, or is picked with an id and without globs or with one that matches, or is named by a rescue |
| CoverageTheorems.GapsAre | code_review/handlers.py:1186-1194 | the gaps are exactly the changed files with fewer than two reviewers |
| Readiness.TagsLike | code_review/handlers.py:1206-1218 | the loops collect the id and its runs of one to four segments |
| Readiness.TagsAreStandingPhrases | code_review/handlers.py:1206-1218 | a tag is the id or a phrase of at most four words that stands in it between hyphens, and every such phrase is one |
| GateTheorems.TagsIff | code_review/handlers.py:1206-1218 | the tags are the id and the phrases with fewer than four hyphens that stand in it |
| GateTheorems.CleanCode | code_review/handlers.py:1228-1232 | gate 1 is for readability or a clean-code phrase standing in the id |
| GateTheorems.Resilience | code_review/handlers.py:1233-1246 | gate 2 is for correctness together with a resilience phrase |
| GateTheorems.CodeQuality | code_review/handlers.py:1247-1260 | gate 3 is for correctness or a code-quality phrase |
| GateTheorems.Tests | code_review/handlers.py:1261-1262 | gate 4 is for tests |
| GateTheorems.Architecture | code_review/handlers.py:1263-1275 | gate 5 is for architecture, performance or an architecture phrase |
| GateTheorems.Security | code_review/handlers.py:1276-1280 | gate 6 is for security or a safety phrase |
| GateTheorems.Documentation | code_review/handlers.py:1281-1282 | gate 7 is for documentation |
| GateTheorems.Domain | code_review/handlers.py:1283-1288 | gate 8 is for ids in which cli, api or observability stands, domain begins a longer phrase, or that start with obs and a hyphen |
| GateTheorems.StatusMeans | code_review/handlers.py:1319-1345 | a gate is not applicable exactly when no picked leaf answers to it, and fails exactly when one that does stands behind a critical or important finding |
| Readiness.EvaluateGate | code_review/handlers.py:1308-1345 | a gate's contributors, blockers and status |
| Readiness.FailsIffBlocked | code_review/handlers.py:1330-1345 | a gate fails exactly when a leaf that matches it stands behind a blocking finding |
| Readiness.SynthesizeReadiness | code_review/handlers.py:1292-1353 | eight gates in order, and NO-GO exactly when one fails or coverage was violated |
| GateTheorems.DimensionsFail | code_review/handlers.py:1228-1345 | readability, correctness, tests, architecture or performance, security, and documentation each fail their own gate when a leaf with it stands behind a critical or important finding |
| GateTheorems.VerdictIff | code_review/handlers.py:1298-1353 | the verdict is NO-GO exactly when coverage was violated or a picked leaf with one of these dimensions or phrases stands behind a critical or important finding |
| GateTheorems.StrangersDecideNothing | code_review/handlers.py:1221-1353 | a leaf with none of them changes no gate and no verdict |
| VerdictTheorems.Conclude | code_review/spec.py:1217-1300 | ranking, coverage and gates in sequence end in the verdict of the ranked findings |
| VerdictTheorems.GoMeans | code_review/handlers.py:1298-1351 | GO says exactly: every changed file has two reviewers and no picked leaf of any gate stands behind a surviving blocking finding |
| CoverageTheorems.VerdictInFull | code_review/handlers.py:1131-1353 | the final verdict in full: GO exactly when two different specialists reviewed every changed file and no picked leaf with a gate dimension or phrase stands behind a critical or important finding, else NO-GO |
| VerdictTheorems.CollectionKeepsCoverage | code_review/handlers.py:1131-1143 | while keys tell files apart, every file has the same reviewers on the raw and on the collected findings |
| VerdictTheorems.CoverageKeptIff | code_review/handlers.py:1131-1143 | it has, whoever reported what and whatever was picked and rescued, exactly when no two reports on different files share a key |
| VerdictTheorems.RawNoGoStaysNoGo | code_review/handlers.py:1298-1351 | while keys tell files apart, a verdict that is NO-GO on the raw findings is NO-GO on the collected ones |
| VerdictTheorems.NoGoKeptIff | code_review/handlers.py:1298-1351 | it is, whoever reported what, exactly when no two reports on different files share a key |
| VerdictTheorems.GoNeedsAnExplicitDrop | code_review/handlers.py:1298-1351 | if a gated leaf reported something blocking and the verdict is GO, the ranker explicitly dropped a blocking finding of that leaf |
| CoverageFloor.ApplyFloor | code_review/runner.py:170-212 | the floor acts only on an empty trim with usable candidates, and is a no-op otherwise |
| CoverageFloor.FloorPicksTheBest | code_review/runner.py:188-205 | for any candidates and cap the floor picks exactly those with an id and a path among the best the cap admits, best first, and none beyond the cap scores higher |
| CoverageFloor.NeverSilentlyEmpty | code_review/runner.py:188-212 | the floor picks nothing exactly when none of those carries an id and a path |
| FloorTheorems.ScoreIs | code_review/runner.py:190-196 | the score: three for security or correctness, two for one of seven id prefixes, one for naming a language, one for every match |
| FloorTheorems.CapIs | code_review/runner.py:187 | the cap is the review's, else the tier's, else 20, zero counting as none |
| FloorTheorems.PicksAreBare | code_review/runner.py:199-204 | every pick is an activated leaf with an id and a path, keeps its dimensions and carries no signal on |
| Fsm.RunReview | code_review/runner.py:543-634 | the driver's loop stops at the first fault or at the end, within 78 steps, never at its step limit |
| Fsm.FirstMatchTaken | code_review/spec.py:862-1441 | the transition taken is the first whose guard holds |
| Fsm.Declared | code_review/spec.py:862-1441 | every state but the last ends with an unconditional transition, and every transition goes down in rank |
| FsmTheorems.EarlyBranches | code_review/spec.py:862-1030 | where the states up to the trimming of candidates lead, by what they leave in the run state |
| FsmTheorems.LateBranches | code_review/spec.py:1038-1256 | where the states from tool discovery to ranking lead; the loop repeats until its last batch or its 64th iteration |
| FsmTheorems.EndBranches | code_review/spec.py:1261-1441 | where the endings lead: only covered and stuck runs go through the gates |
| FsmTheorems.ShortCircuitIff | code_review/spec.py:926-934 | a review is cut short exactly when its diff is trivial and shows no risk signal and no scope override |
| FsmTheorems.NoCandidatesIff | code_review/spec.py:989-998 | it ends without candidates exactly when the descent left none |
| FsmTheorems.DispatchesIff | code_review/spec.py:862-1109 | specialists are dispatched exactly when the diff is not trivial, some leaf was activated, some candidate left, some batch planned and nobody refused thrice |
| Fsm.NeverReturns | code_review/spec.py:862-1491 | no state but the loop is visited twice |
| Fsm.ReportWrittenOnce | code_review/spec.py:1303-1334 | a run that arrives has written the run directory and then printed, each exactly once |
| Fsm.ExactlyOneEnding | code_review/spec.py:1261-1441 | a run that arrives verified coverage, or hit an impasse, or was trivial, or had nothing to review: exactly one of these |
| Fsm.CoverageFollowsRanking | code_review/spec.py:1178-1258 | coverage is verified only right after merging, collecting and ranking |
| Fsm.LoopDrainsPlan | code_review/spec.py:1104-1174 | the loop runs once per planned batch up to its cap, and coverage is never verified without it |
| ReviewRun.CoveredRunConcludes | code_review/handlers.py:1292-1353 | a run that verified coverage is not degraded, and its verdict is that of ranking, coverage and gates on the collected findings |
| ReviewRun.StuckRunConcludes | code_review/handlers.py:2806-2885 | a run through a verifier impasse is degraded, its findings are the ranked ones if any were collected, and it is GO exactly when none of them holds a gate |
| ReviewRun.ImpasseAfterCollectionIff | code_review/spec.py:848-1258 | a run enters an impasse with findings collected exactly when the ranker is the state that got stuck |
| ReviewRun.EarlyImpasseIsGo | code_review/handlers.py:1349-1353 | a run that hit an impasse without collecting findings ends degraded, without findings, and GO |
| ReviewRun.DegradedRunEndsGo | code_review/spec.py:862-895 | such runs exist: three rejections of the first state suffice |
| ReviewRun.OtherRunsConclude | code_review/handlers.py:2213-2265 | a trivial diff ends GO and not degraded, nothing to review ends CONDITIONAL and degraded |
| ReviewRun.GoRunDroppedExplicitly | code_review/handlers.py:1292-1353 | over every run: if findings were collected, a gated leaf had reported something blocking and the run ends GO, the ranker explicitly dropped a blocking finding of that leaf |
| Pipeline.FileResults | code_review/runner.py:415-416 | results filed by unit key, none overwriting another |
| Pipeline.Review | code_review/runner.py:566-589 | for every size budget and after any complete pool run, the files covered, the merged outputs and the findings are a function of the answers: threads, schedule and limits do not show |
| Pipeline.ReviewAndConclude | code_review/runner.py:543-634 | from plan to gates: after any complete pool run the verdict is a function of the answers of specialists, ranker and earlier workers, and there is one exactly when the plan fits the loop's cap |
| Pipeline.CoveredRunVerdict | code_review/runner.py:543-634 | it is the verdict every state-machine run through coverage ends with that collected those findings |
| Hearing.HeardIsSaid | code_review/runner.py:355-389 | a unit's row is completed with a report exactly when a sub-call reported it without calling itself failed or skipped, and it goes under the answer's id or the leaf's |
| Hearing.FindingsWereHeard | code_review/runner.py:543-634 | whatever the budget, every finding of the review was reported by some call |
| Hearing.EveryoneIsHeard | code_review/runner.py:543-634 | when the rows fit the budget and file names hold no colon, every specialist is credited with exactly the files its calls reported on, and whoever reported something critical or important stands behind such a finding |
| Hearing.BlockerDecides | code_review/runner.py:543-634 | from one call's answer to the verdict: a critical or important report of a picked leaf with a gate dimension or phrase makes the review NO-GO, unless the ranker explicitly dropped such a finding of that leaf |
| Markdown.ChainIsOnePass | code_review/handlers.py:1671-1675 | the four chained replacements equal one pass over the characters, for every text |
| Markdown.SplitEscaped | code_review/handlers.py:1671-1675 | no pipe of an escaped cell separates anything |
| Markdown.RowRoundTripIff | code_review/handlers.py:1898-1908 | a rendered row reads back as its cells exactly when they hold no newline |
| Markdown.RenderCoverage | code_review/handlers.py:1898-1908 | the table is the heading, one row per coverage entry in order, and a blank line |
| Markdown.CoverageRowReadsBackIff | code_review/handlers.py:1898-1908 | a coverage row reads back as its file and reviewers exactly when neither holds a newline |
| Markdown.RowSays | code_review/handlers.py:1898-1908 | an em dash stands for an unknown file and for nobody |
| MarkdownTheorems.ReviewersReadBack | code_review/handlers.py:1898-1908 | reviewers' names without commas can be told apart again in their cell |

## Left out

- Language-model backends, subprocess and HTTP calls, prompts and answer scraping: calls are oracles whose answers are unconstrained.
- The embedding hook and cosine similarity: only the token-overlap path of the semantic merge is modelled, and its quotient is compared exactly as integers.
- Wiki walking, frontmatter, git diff, report and shard files: leaf fields are given, keyword and structural matches are given booleans, and the serialised size is any function of an output.
- The glob cache, and the leaf-glob cache of the coverage handler: a cached value equals the recomputed one.
- Letter case, white space and digits beyond ASCII: `Text` folds and strips ASCII only.
- Findings, files and titles of other types than the schema's: a file is a string, a line an integer or absent, a confidence a number or absent.
- Identity of dictionaries: outputs are values, so two units sharing one output object are not represented.
- Truncation of fractional token counts by `int()`: token counts are integers.
- Wall-clock timings and per-stage records of the runner: they do not influence a result.
- The number of threads the executor really starts: `Pool` allows any number.
- The state-machine engine and the verifier panel: assumed to take the first transition whose guard holds and to leave the loop at its cap; rejection counts are arbitrary.
- Response schemas, post-validations and risk-tier triage: a refused output or a tier is the environment's choice in `Fsm`.
- Re-attaching leaf metadata after the routing workers, and null stripping: field-by-field copies.
- Cost price tables, benchmark scripts, command line, installer and path sharding: they decide nothing about a review.
- Markdown.ReadRow: it strips exactly one blank around a cell and takes a lone carriage return as text, while GitHub Flavored Markdown trims all outer blanks and ends a line at a lone carriage return; for such a reader a cell with outer blanks or a lone carriage return would not come back unchanged.
- The handler's own size budget of 100 MiB: the budget of the size guard is a parameter.
- CollectTheorems.CollectionOrderIrrelevant: where findings of different keys are related its condition is sufficient only; when a shuffle shows there depends on which records the merge keeps, and no condition on the findings short of carrying out the merges is stated.
- PoolProofs.PoolOutcome: the answers of a unit are fixed by its tree, so an answer cannot depend on what other threads did in the meantime; since the trees are arbitrary this leaves out no outcome of a single run.
