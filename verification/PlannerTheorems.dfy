/** The plan in numbers: which files a leaf is given, how many fit one unit, how many units one batch. */
module PlannerTheorems {
  import opened Util
  import opened Findings
  import opened Leaves
  import opened Planner
  import Glob

  /** A leaf without file globs reviews every changed file, another those one of its globs matches. */
  lemma FilesOfLeaf(leaf: Leaf, changedPaths: seq<string>, p: string)
    ensures p in LeafFiles(leaf, changedPaths) <==>
      && p in changedPaths
      && (leaf.fileGlobs in {None, Some([])}
          || exists g :: g in leaf.fileGlobs.value && g != "" && Glob.Minimatch(p, g))
  {
    if !FullScope(leaf) {
      MatchedMeans(leaf.fileGlobs.value, changedPaths);
    }
  }

  /** The least number of slices that 500 tokens a file leave room for. */
  predicate LeastSlices(n: nat, limit: int, slices: int) {
    (slices - 1) * limit < 500 * n <= slices * limit
  }

  /** At 500 tokens a file, a leaf whose files fit the limit is one unit of one; every unit of any other
      announces the least number of slices that could hold the files, at least two. */
  lemma SlicesAnnounced(leafId: string, files: seq<string>, limit: int)
    requires limit > 0
    ensures 500 * |files| <= limit ==> UnitsOf(leafId, files, limit) == [ReviewUnit(leafId, 1, 1, files)]
    ensures 500 * |files| > limit ==>
      forall u :: u in UnitsOf(leafId, files, limit) ==> u.totalSubs >= 2 && LeastSlices(|files|, limit, u.totalSubs)
  {
    var n := |files|;
    if 500 * n > limit {
      SplitSizes(n, limit);
      CeilBounds(n * TOKENS_PER_FILE, limit);
      SlicesPartition(leafId, files, ChunkSize(n, limit), 0, SubCount(n, limit));
    }
  }

  /** A batch size or token limit that is given and positive counts; without one a batch holds three units
      of a trivial or sensitive diff, five of a full one and four otherwise, and a unit 80000 tokens. */
  lemma DefaultsAre(tier: Option<string>, given: Option<int>)
    ensures given.Some? && given.value > 0 ==>
      PositiveOr(given, TierBatchSize(tier)) == given.value == PositiveOr(given, DEFAULT_MAX_LEAF_TOKENS)
    ensures given.None? || given.value <= 0 ==>
      && PositiveOr(given, DEFAULT_MAX_LEAF_TOKENS) == 80_000
      && (tier in {Some("trivial"), Some("sensitive")} ==> PositiveOr(given, TierBatchSize(tier)) == 3)
      && (tier == Some("full") ==> PositiveOr(given, TierBatchSize(tier)) == 5)
      && (tier !in {Some("trivial"), Some("sensitive"), Some("full")} ==> PositiveOr(given, TierBatchSize(tier)) == 4)
  {
  }

  lemma {:induction false} UnitsOfMember(leaves: seq<Leaf>, changedPaths: seq<string>, limit: int, leaf: Leaf,
                                         u: ReviewUnit)
    requires limit > 0 && leaf in leaves && u in LeafUnits(leaf, changedPaths, limit)
    ensures u in AllUnits(leaves, changedPaths, limit)
  {
    var n := |leaves| - 1;
    if leaf != leaves[n] {
      UnitsOfMember(leaves[..n], changedPaths, limit, leaf, u);
    }
  }

  /** What a plan with the handler's defaults looks like: full batches of the tier's size before the last,
      and by default one unit for every leaf of up to 160 files. */
  lemma DefaultPlan(leaves: seq<Leaf>, changedPaths: seq<string>, tier: Option<string>, plan: Plan, leaf: Leaf)
    requires IsPlan(leaves, changedPaths, PositiveOr(None, TierBatchSize(tier)),
                    PositiveOr(None, DEFAULT_MAX_LEAF_TOKENS), plan)
    ensures forall i :: 0 <= i < |plan.batches| - 1 ==>
      |plan.batches[i].units| == if tier in {Some("trivial"), Some("sensitive")} then 3
                                 else if tier == Some("full") then 5 else 4
    ensures leaf in leaves && leaf.id != "" && |LeafFiles(leaf, changedPaths)| <= 160 ==>
      ReviewUnit(leaf.id, 1, 1, LeafFiles(leaf, changedPaths)) in AllUnits(leaves, changedPaths, 80_000)
  {
    DefaultsAre(tier, None);
    BatchesPack(AllUnits(leaves, changedPaths, 80_000), PositiveOr(None, TierBatchSize(tier)), 0);
    if leaf in leaves && leaf.id != "" && |LeafFiles(leaf, changedPaths)| <= 160 {
      SlicesAnnounced(leaf.id, LeafFiles(leaf, changedPaths), 80_000);
      UnitsOfMember(leaves, changedPaths, 80_000, leaf, ReviewUnit(leaf.id, 1, 1, LeafFiles(leaf, changedPaths)));
    }
  }
}
