/** From plan to findings: the planner's units go through the pool, the loop replays what the pool
    filed, the merger folds it, and collection turns it into findings. */
module Pipeline {
  import opened Util
  import opened Findings
  import opened Leaves
  import opened CallTree
  import opened Planner
  import opened Trim
  import opened Merger
  import opened Ranking
  import opened Coverage
  import opened Readiness
  import opened VerdictTheorems
  import Fsm
  import ReviewRun
  import Pool
  import PoolProofs
  import Dedup
  import Collect
  import CollectHandler

  predicate DistinctIds(leaves: seq<Leaf>) {
    forall i, j :: 0 <= i < j < |leaves| ==> leaves[i].id != leaves[j].id
  }

  /** The answers each unit meets, one call tree per planned unit. */
  ghost predicate Answers(trees: seq<Tree>, units: seq<ReviewUnit>, retries: nat) {
    |trees| == |units| && PoolProofs.AllValid(trees, retries)
    && forall u :: 0 <= u < |units| ==> trees[u].unit == units[u]
  }

  ghost function Outputs(trees: seq<Tree>, retries: nat): (os: seq<SpecialistOutput>)
    requires PoolProofs.AllValid(trees, retries)
    ensures |os| == |trees| && forall u :: 0 <= u < |trees| ==> os[u] == Output(trees[u], retries)
  {
    seq(|trees|, u requires 0 <= u < |trees| => Output(trees[u], retries))
  }

  /** Files the pool's results by unit, in submission order. */
  method FileResults(units: seq<ReviewUnit>, results: map<nat, SpecialistOutput>)
      returns (filed: map<UnitKey, SpecialistOutput>)
    requires forall u: nat :: u < |units| ==> u in results
    requires forall a, b :: 0 <= a < b < |units| ==> Key(units[a]) != Key(units[b])
    ensures forall u: nat :: u < |units| ==> Key(units[u]) in filed && filed[Key(units[u])] == results[u]
  {
    filed := map[];
    for u := 0 to |units|
      invariant forall v: nat :: v < u ==> Key(units[v]) in filed && filed[Key(units[v])] == results[v]
    {
      filed := filed[Key(units[u]) := results[u]];
    }
  }

  method FindingsOfOutputs(outputs: seq<SpecialistOutput>, threshold: Option<real>) returns (findings: seq<Record>)
    ensures findings == Collect.Collected(Dedup.Stream(outputs), threshold.GetOr(0.75))
  {
    var c := CollectHandler.CollectFindings(outputs, threshold);
    findings := c.findings;
  }

  /** A finished pool run: nobody can move. */
  ghost predicate RunToEnd(trees: seq<Tree>, s: Pool.State, schedule: seq<nat>) {
    Pool.Schedule(trees, s, schedule) && forall w: nat :: !Pool.Enabled(trees, Pool.Run(trees, s, schedule), w)
  }

  /** The review of a plan, after any complete run of the pool. For distinct leaf ids and a plan within
      the loop's cap, what is merged and what is found is a function of the answers alone, whatever the
      size budget: neither the interleaving, nor the number of threads, nor the limits show. */
  method Review(leaves: seq<Leaf>, changedPaths: seq<string>, tier: Option<string>, batchSizeArg: Option<int>,
                maxLeafTokensArg: Option<int>, ghost trees: seq<Tree>, ghost retries: nat, ghost threads: nat,
                ghost maxWorkers: int, ghost minWorkers: int, ghost before: map<Pool.Metric, real>,
                ghost schedule: seq<nat>,
                results: map<nat, SpecialistOutput>, size: SpecialistOutput -> nat, budget: nat,
                threshold: Option<real>)
      returns (merged: MergeResult, unionFiles: set<string>, findings: seq<Record>)
    requires DistinctIds(leaves) && threads > 0 && 1 <= maxWorkers && minWorkers <= maxWorkers
    requires Answers(trees, AllUnits(leaves, changedPaths, PositiveOr(maxLeafTokensArg, DEFAULT_MAX_LEAF_TOKENS)),
                     retries)
    requires before.Keys == Pool.METRICS
    requires var start := Pool.Start(trees, threads, maxWorkers, minWorkers, before);
      RunToEnd(trees, start, schedule) && results == Pool.Run(trees, start, schedule).results
    ensures merged.Merged? <==>
      |Batches(AllUnits(leaves, changedPaths, PositiveOr(maxLeafTokensArg, DEFAULT_MAX_LEAF_TOKENS)),
               PositiveOr(batchSizeArg, TierBatchSize(tier)), 0)| <= Fsm.MAX_ITERATIONS
    ensures merged.Merged? ==>
      && unionFiles == FilesIn(AllUnits(leaves, changedPaths, PositiveOr(maxLeafTokensArg, DEFAULT_MAX_LEAF_TOKENS)))
      && merged.outputs == Trimmed(Outputs(trees, retries), size, budget)
      && findings == Collect.Collected(Dedup.Stream(merged.outputs), threshold.GetOr(0.75))
  {
    var plan := PlanSpecialistBatches(leaves, changedPaths, tier, batchSizeArg, maxLeafTokensArg);
    var maxLeafTokens := PositiveOr(maxLeafTokensArg, DEFAULT_MAX_LEAF_TOKENS);
    var units := AllUnits(leaves, changedPaths, maxLeafTokens);
    KeysDistinct(leaves, changedPaths, maxLeafTokens);
    PoolProofs.PoolOutcome(trees, retries, threads, maxWorkers, minWorkers, before, schedule);
    var filed := FileResults(units, results);
    merged, unionFiles := DrainAndMerge(leaves, changedPaths, PositiveOr(batchSizeArg, TierBatchSize(tier)),
                                        maxLeafTokens, plan, filed, size, budget);
    assert UnitOutputs(filed, units) == Outputs(trees, retries);
    findings := [];
    if merged.Merged? {
      findings := FindingsOfOutputs(merged.outputs, threshold);
    }
  }

  // ---- the verdict -------------------------------------------------------------------------

  /** The findings a review collects, from the answers alone. */
  ghost function FindingsOf(trees: seq<Tree>, retries: nat, size: SpecialistOutput -> nat, budget: nat,
                            threshold: Option<real>): seq<Record>
    requires PoolProofs.AllValid(trees, retries)
  {
    Collect.Collected(Dedup.Stream(Trimmed(Outputs(trees, retries), size, budget)), threshold.GetOr(0.75))
  }

  /** The verdict of a review that verifies coverage, from the answers alone. */
  ghost function AnsweredVerdict(trees: seq<Tree>, retries: nat, size: SpecialistOutput -> nat, budget: nat,
                                 threshold: Option<real>, decisions: seq<Decision>, picked: seq<Leaf>,
                                 rescues: seq<Rescue>, changed: seq<string>): Verdict
    requires PoolProofs.AllValid(trees, retries)
  {
    var ranked := Ranked(FindingsOf(trees, retries, size, budget, threshold), decisions, Threshold(threshold));
    FinalVerdict(ranked, picked, rescues, changed)
  }

  /** Plan, pool, loop, merge, collection, ranking, coverage and gates: after any complete run of the
      pool, and for a plan within the loop's cap, the verdict is a function of the answers of the
      specialists, the ranker and the earlier workers. */
  method ReviewAndConclude(picked: seq<Leaf>, rescues: seq<Rescue>, changed: seq<string>, tier: Option<string>,
                           batchSizeArg: Option<int>, maxLeafTokensArg: Option<int>, ghost trees: seq<Tree>,
                           ghost retries: nat, ghost threads: nat, ghost maxWorkers: int, ghost minWorkers: int,
                           ghost before: map<Pool.Metric, real>, ghost schedule: seq<nat>,
                           results: map<nat, SpecialistOutput>, size: SpecialistOutput -> nat, budget: nat,
                           decisions: seq<Decision>, threshold: Option<real>)
      returns (verdict: Option<Verdict>)
    requires DistinctIds(picked) && threads > 0 && 1 <= maxWorkers && minWorkers <= maxWorkers
    requires Answers(trees, AllUnits(picked, changed, PositiveOr(maxLeafTokensArg, DEFAULT_MAX_LEAF_TOKENS)), retries)
    requires before.Keys == Pool.METRICS
    requires var start := Pool.Start(trees, threads, maxWorkers, minWorkers, before);
      RunToEnd(trees, start, schedule) && results == Pool.Run(trees, start, schedule).results
    ensures verdict.Some? <==>
      |Batches(AllUnits(picked, changed, PositiveOr(maxLeafTokensArg, DEFAULT_MAX_LEAF_TOKENS)),
               PositiveOr(batchSizeArg, TierBatchSize(tier)), 0)| <= Fsm.MAX_ITERATIONS
    ensures verdict.Some? ==>
      verdict.value == AnsweredVerdict(trees, retries, size, budget, threshold, decisions, picked, rescues, changed)
  {
    var merged, unionFiles, findings :=
      Review(picked, changed, tier, batchSizeArg, maxLeafTokensArg, trees, retries, threads, maxWorkers, minWorkers,
             before, schedule, results, size, budget, threshold);
    if !merged.Merged? {
      return None;
    }
    var ranked, rows, v := Conclude(findings, decisions, threshold, picked, rescues, changed);
    verdict := Some(v);
  }

  /** And it is the verdict that a run of the state machine through coverage ends with, whatever path it
      took there, when what it collected are the findings of such a review. */
  lemma CoveredRunVerdict(envs: nat -> Fsm.Env, w: ReviewRun.Answers, k: nat, trees: seq<Tree>, retries: nat,
                          size: SpecialistOutput -> nat, budget: nat)
    requires PoolProofs.AllValid(trees, retries)
    requires Fsm.Going(envs, k) && Fsm.At(envs, k).state == Fsm.Terminal
    requires Fsm.Visits(envs, Fsm.VerifyCoverage, k) >= 1
    requires w.collected == FindingsOf(trees, retries, size, budget, w.rankThreshold)
    ensures ReviewRun.FactsAt(envs, w, k).verdict == Some(
      AnsweredVerdict(trees, retries, size, budget, w.rankThreshold, w.decisions, w.picked, w.rescues, w.changed))
  {
    ReviewRun.CoveredRunConcludes(envs, w, k);
  }
}
