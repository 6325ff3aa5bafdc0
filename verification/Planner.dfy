/** The deterministic planner: picked leaves become units (slices of a leaf's files) and the units are
    packed into batches, one batch per iteration of the dispatch loop. */
module Planner {
  import opened Util
  import opened Findings
  import opened Leaves
  import Glob

  const TOKENS_PER_FILE := 500
  const DEFAULT_MAX_LEAF_TOKENS := 80_000

  datatype Batch = Batch(index: nat, units: seq<ReviewUnit>)

  datatype Plan = Plan(batches: seq<Batch>, totalBatches: nat, totalFilesPlanned: nat)

  function TierBatchSize(tier: Option<string>): (r: int)
    ensures 3 <= r <= 5
  {
    if tier == Some("trivial") then 3
    else if tier == Some("lite") then 4
    else if tier == Some("full") then 5
    else if tier == Some("sensitive") then 3
    else 4
  }

  function PositiveOr(given: Option<int>, default: int): int {
    if given.Some? && given.value > 0 then given.value else default
  }

  /** Ceiling division, by negating a floor division. */
  function MathCeil(num: int, den: int): (q: int)
    ensures den <= 0 ==> q == 0
  {
    if den <= 0 then 0 else -((-num) / den)
  }

  lemma CeilBounds(num: int, den: int)
    requires den > 0
    ensures (MathCeil(num, den) - 1) * den < num <= MathCeil(num, den) * den
    ensures num > 0 ==> MathCeil(num, den) >= 1
  {
    var q, r := (-num) / den, (-num) % den;
    assert -num == den * q + r;
    assert MathCeil(num, den) == -q;
    assert -q * den == -(den * q) && (-q - 1) * den == -(den * q) - den;
  }

  // ---- which files a leaf reviews ----------------------------------------------------------

  predicate AnyGlob(globs: seq<string>, path: string) {
    exists g :: g in globs && g != [] && Glob.Minimatch(path, g)
  }

  predicate FullScope(leaf: Leaf) {
    leaf.fileGlobs.None? || leaf.fileGlobs.value == []
  }

  /** The changed paths some glob of the leaf matches, each once, in diff order. */
  function Matched(globs: seq<string>, paths: seq<string>): seq<string> {
    if paths == [] then []
    else
      var before, last := Matched(globs, paths[..|paths| - 1]), paths[|paths| - 1];
      if AnyGlob(globs, last) && last !in before then before + [last] else before
  }

  function LeafFiles(leaf: Leaf, changedPaths: seq<string>): seq<string> {
    if FullScope(leaf) then changedPaths else Matched(leaf.fileGlobs.value, changedPaths)
  }

  lemma {:induction false} MatchedMeans(globs: seq<string>, paths: seq<string>)
    ensures Distinct(Matched(globs, paths))
    ensures forall p :: p in Matched(globs, paths) <==> p in paths && AnyGlob(globs, p)
  {
    if paths == [] {
    } else {
      MatchedMeans(globs, paths[..|paths| - 1]);
      assert paths == paths[..|paths| - 1] + [paths[|paths| - 1]];
    }
  }

  method LeafFileSet(leaf: Leaf, changedPaths: seq<string>) returns (files: seq<string>)
    ensures files == LeafFiles(leaf, changedPaths)
    ensures !FullScope(leaf) ==> Distinct(files)
    ensures forall p :: p in files <==> p in changedPaths && (FullScope(leaf) || AnyGlob(leaf.fileGlobs.value, p))
  {
    if FullScope(leaf) {
      return changedPaths;
    }
    var seen: set<string> := {};
    files := [];
    for i := 0 to |changedPaths|
      invariant files == Matched(leaf.fileGlobs.value, changedPaths[..i])
      invariant forall p :: p in seen <==> p in files
    {
      assert changedPaths[..i + 1][..i] == changedPaths[..i];
      if AnyGlob(leaf.fileGlobs.value, changedPaths[i]) && changedPaths[i] !in seen {
        files, seen := files + [changedPaths[i]], seen + {changedPaths[i]};
      }
    }
    assert changedPaths[..|changedPaths|] == changedPaths;
    MatchedMeans(leaf.fileGlobs.value, changedPaths);
  }

  // ---- slicing one leaf --------------------------------------------------------------------

  /** Consecutive slices of at most `chunk` files, numbered from `done + 1`, at most `subs` in all. */
  function Slices(leafId: string, rest: seq<string>, chunk: nat, done: nat, subs: nat): seq<ReviewUnit>
    decreases subs - done
  {
    if done >= subs || rest == [] then []
    else
      var cut := Min(chunk, |rest|);
      [ReviewUnit(leafId, done + 1, subs, rest[..cut])] + Slices(leafId, rest[cut..], chunk, done + 1, subs)
  }

  function SubCount(n: nat, maxLeafTokens: int): int { MathCeil(n * TOKENS_PER_FILE, maxLeafTokens) }

  function ChunkSize(n: nat, maxLeafTokens: int): int { MathCeil(n, SubCount(n, maxLeafTokens)) }

  lemma SplitSizes(n: nat, maxLeafTokens: int)
    requires maxLeafTokens > 0 && n > 0
    ensures var subs, chunk := SubCount(n, maxLeafTokens), ChunkSize(n, maxLeafTokens);
            && subs >= 1 && chunk >= 1 && subs * chunk >= n && (chunk - 1) * subs < n
            && n * TOKENS_PER_FILE <= subs * maxLeafTokens
  {
    CeilBounds(n * TOKENS_PER_FILE, maxLeafTokens);
    CeilBounds(n, SubCount(n, maxLeafTokens));
  }

  function UnitsOf(leafId: string, files: seq<string>, maxLeafTokens: int): seq<ReviewUnit>
    requires maxLeafTokens > 0
  {
    var n := |files|;
    if n * TOKENS_PER_FILE > maxLeafTokens then
      SplitSizes(n, maxLeafTokens);
      Slices(leafId, files, ChunkSize(n, maxLeafTokens), 0, SubCount(n, maxLeafTokens))
    else [ReviewUnit(leafId, 1, 1, files)]
  }

  function UnitFiles(u: ReviewUnit): seq<string> { u.files }

  lemma NonNegativeProduct(a: int, b: int)
    requires a >= 0 && b >= 0
    ensures a * b >= 0
  {
  }

  /** The slices are non-empty, in order, and nothing is left over; each but the last is full. */
  lemma {:induction false} SlicesPartition(leafId: string, rest: seq<string>, chunk: nat, done: nat, subs: nat)
    requires done <= subs && chunk >= 1 && (subs - done) * chunk >= |rest|
    ensures var us := Slices(leafId, rest, chunk, done, subs);
            && Flatten(Map(UnitFiles, us)) == rest
            && |us| <= subs - done
            && (forall i :: 0 <= i < |us| ==>
                  us[i].leafId == leafId && us[i].subIndex == done + i + 1 && us[i].totalSubs == subs
                  && 1 <= |us[i].files| <= chunk)
            && (forall i :: 0 <= i < |us| - 1 ==> |us[i].files| == chunk)
    decreases subs - done
  {
    if done == subs || rest == [] {
    } else {
      var cut := Min(chunk, |rest|);
      assert (subs - done) * chunk == (subs - (done + 1)) * chunk + chunk;
      NonNegativeProduct(subs - (done + 1), chunk);
      SlicesPartition(leafId, rest[cut..], chunk, done + 1, subs);
      var tail := Slices(leafId, rest[cut..], chunk, done + 1, subs);
      var us := [ReviewUnit(leafId, done + 1, subs, rest[..cut])] + tail;
      assert us[1..] == tail;
      assert rest == rest[..cut] + rest[cut..];
      forall i | 0 <= i < |us| - 1 ensures |us[i].files| == chunk {
        if i > 0 {
          assert us[i] == tail[i - 1];
        }
      }
    }
  }

  /** What one leaf becomes: at least one unit, together exactly the leaf's files in order, numbered
      1, 2, ..., never more than the announced total; a leaf without files still gets its unit. */
  lemma UnitsPartition(leafId: string, files: seq<string>, maxLeafTokens: int)
    requires maxLeafTokens > 0
    ensures var us := UnitsOf(leafId, files, maxLeafTokens);
            && us != [] && Flatten(Map(UnitFiles, us)) == files
            && (forall i :: 0 <= i < |us| ==>
                  us[i].leafId == leafId && us[i].subIndex == i + 1 && |us| <= us[i].totalSubs)
            && (files != [] ==> forall i :: 0 <= i < |us| ==> us[i].files != [])
  {
    var n := |files|;
    if n * TOKENS_PER_FILE > maxLeafTokens {
      SplitSizes(n, maxLeafTokens);
      SlicesPartition(leafId, files, ChunkSize(n, maxLeafTokens), 0, SubCount(n, maxLeafTokens));
    } else {
      assert Flatten(Map(UnitFiles, [ReviewUnit(leafId, 1, 1, files)])) == files + Flatten(Map(UnitFiles, []));
    }
  }

  lemma Distribute(a: int, b: int, k: int)
    ensures (a - b) * k == a * k - b * k
  {
  }

  lemma CancelFactor(a: int, b: int, k: int)
    requires k > 0 && a * k < b * k
    ensures a < b
  {
    if a >= b {
      NonNegativeProduct(a - b, k);
      Distribute(a, b, k);
      assert false;
    }
  }

  lemma ChunkBudget(n: nat, maxLeafTokens: int)
    requires maxLeafTokens > 0 && n > 0
    ensures (ChunkSize(n, maxLeafTokens) - 1) * TOKENS_PER_FILE < maxLeafTokens
  {
    SplitSizes(n, maxLeafTokens);
    var subs, chunk := SubCount(n, maxLeafTokens), ChunkSize(n, maxLeafTokens);
    assert TOKENS_PER_FILE * ((chunk - 1) * subs) < TOKENS_PER_FILE * n <= subs * maxLeafTokens;
    assert ((chunk - 1) * TOKENS_PER_FILE) * subs == TOKENS_PER_FILE * ((chunk - 1) * subs);
    CancelFactor((chunk - 1) * TOKENS_PER_FILE, maxLeafTokens, subs);
  }

  lemma WithinBudget(c: int, chunk: int, limit: int)
    requires c <= chunk && (chunk - 1) * TOKENS_PER_FILE < limit
    ensures (c - 1) * TOKENS_PER_FILE < limit
    ensures limit % TOKENS_PER_FILE == 0 ==> c * TOKENS_PER_FILE <= limit
  {
  }

  /** Taking one file away from any slice brings it strictly below the token budget. */
  lemma SliceBudget(leafId: string, files: seq<string>, maxLeafTokens: int, i: nat)
    requires maxLeafTokens > 0 && i < |UnitsOf(leafId, files, maxLeafTokens)|
    ensures var c := |UnitsOf(leafId, files, maxLeafTokens)[i].files|;
            && (c - 1) * TOKENS_PER_FILE < maxLeafTokens
            && (maxLeafTokens % TOKENS_PER_FILE == 0 ==> c * TOKENS_PER_FILE <= maxLeafTokens)
  {
    var n := |files|;
    if n * TOKENS_PER_FILE > maxLeafTokens {
      SplitSizes(n, maxLeafTokens);
      SlicesPartition(leafId, files, ChunkSize(n, maxLeafTokens), 0, SubCount(n, maxLeafTokens));
      ChunkBudget(n, maxLeafTokens);
      WithinBudget(|UnitsOf(leafId, files, maxLeafTokens)[i].files|, ChunkSize(n, maxLeafTokens), maxLeafTokens);
    }
  }

  predicate Fits(u: ReviewUnit, maxLeafTokens: int) { |u.files| * TOKENS_PER_FILE <= maxLeafTokens }

  lemma ExactQuotient(k: int, d: int)
    requires d > 0
    ensures MathCeil(d * k, d) == k
  {
    CeilBounds(d * k, d);
    var c := MathCeil(d * k, d);
    assert d * k == k * d;
    if c < k {
      NonNegativeProduct(k - c - 1, d);
      Distribute(k - c, 1, d);
      Distribute(k, c, d);
      assert false;
    } else if c > k {
      NonNegativeProduct(c - 1 - k, d);
      Distribute(c - 1, k, d);
      assert false;
    }
  }

  /** A budget of n tokens, not a multiple of one file's cost, and a leaf of n files. */
  lemma OversizedChunk(n: nat)
    requires n > 0 && n % TOKENS_PER_FILE != 0
    ensures SubCount(n, n) == TOKENS_PER_FILE
    ensures ChunkSize(n, n) <= n < ChunkSize(n, n) * TOKENS_PER_FILE
  {
    ExactQuotient(TOKENS_PER_FILE, n);
    CeilBounds(n, TOKENS_PER_FILE);
  }

  lemma OversizedSlice(leafId: string, maxLeafTokens: int) returns (files: seq<string>, u: ReviewUnit)
    requires maxLeafTokens > 0 && maxLeafTokens % TOKENS_PER_FILE != 0
    ensures u in UnitsOf(leafId, files, maxLeafTokens) && !Fits(u, maxLeafTokens)
  {
    var n: nat := maxLeafTokens;
    files := seq(n, _ => "");
    OversizedChunk(n);
    SplitSizes(n, n);
    var us := Slices(leafId, files, ChunkSize(n, n), 0, SubCount(n, n));
    assert us == UnitsOf(leafId, files, n);
    u := us[0];
    assert |u.files| == Min(ChunkSize(n, n), n);
  }

  /** Every slice of every leaf respects the token budget exactly when the budget is a whole number of
      files; otherwise a leaf of `maxLeafTokens` files is cut into slices that exceed it. */
  lemma BudgetExactIff(leafId: string, maxLeafTokens: int)
    requires maxLeafTokens > 0
    ensures (forall files, u :: u in UnitsOf(leafId, files, maxLeafTokens) ==> Fits(u, maxLeafTokens))
            <==> maxLeafTokens % TOKENS_PER_FILE == 0
  {
    if maxLeafTokens % TOKENS_PER_FILE == 0 {
      forall files, u | u in UnitsOf(leafId, files, maxLeafTokens) ensures Fits(u, maxLeafTokens) {
        var i :| 0 <= i < |UnitsOf(leafId, files, maxLeafTokens)| && UnitsOf(leafId, files, maxLeafTokens)[i] == u;
        SliceBudget(leafId, files, maxLeafTokens, i);
      }
    } else {
      var files, u := OversizedSlice(leafId, maxLeafTokens);
    }
  }

  // ---- the whole plan ----------------------------------------------------------------------

  function LeafUnits(leaf: Leaf, changedPaths: seq<string>, maxLeafTokens: int): seq<ReviewUnit>
    requires maxLeafTokens > 0
  {
    if leaf.id == "" then [] else UnitsOf(leaf.id, LeafFiles(leaf, changedPaths), maxLeafTokens)
  }

  /** All units of the picked leaves that carry an id, leaf by leaf. */
  function AllUnits(leaves: seq<Leaf>, changedPaths: seq<string>, maxLeafTokens: int): seq<ReviewUnit>
    requires maxLeafTokens > 0
  {
    if leaves == [] then []
    else
      AllUnits(leaves[..|leaves| - 1], changedPaths, maxLeafTokens)
      + LeafUnits(leaves[|leaves| - 1], changedPaths, maxLeafTokens)
  }

  function FilesIn(units: seq<ReviewUnit>): set<string> {
    set u, f | u in units && f in u.files :: f
  }

  lemma NextStart(k: nat, chunk: nat)
    ensures (k + 1) * chunk == k * chunk + chunk >= 0
  {
    NonNegativeProduct(k, chunk);
  }

  lemma SliceStep(leafId: string, files: seq<string>, chunk: nat, done: nat, subs: nat, start: nat)
    requires done < subs && start < |files|
    ensures var end := Min(start + chunk, |files|);
            Slices(leafId, files[start..], chunk, done, subs)
            == [ReviewUnit(leafId, done + 1, subs, files[start..end])]
               + Slices(leafId, files[end..], chunk, done + 1, subs)
  {
    var end := Min(start + chunk, |files|);
    assert files[start..][..end - start] == files[start..end];
    assert files[start..][end - start..] == files[end..];
  }

  method CutSlices(leafId: string, files: seq<string>, chunkSize: nat, subCount: nat) returns (units: seq<ReviewUnit>)
    requires chunkSize > 0
    ensures units == Slices(leafId, files, chunkSize, 0, subCount)
  {
    units := [];
    var sliceStart := 0;
    for subIdx := 0 to subCount
      invariant sliceStart == subIdx * chunkSize && sliceStart >= 0
      invariant units + Slices(leafId, files[Min(sliceStart, |files|)..], chunkSize, subIdx, subCount)
                == Slices(leafId, files, chunkSize, 0, subCount)
    {
      if sliceStart >= |files| {
        assert files[Min(sliceStart, |files|)..] == [];
        return;
      }
      var sliceEnd := Min(sliceStart + chunkSize, |files|);
      SliceStep(leafId, files, chunkSize, subIdx, subCount, sliceStart);
      units := units + [ReviewUnit(leafId, subIdx + 1, subCount, files[sliceStart..sliceEnd])];
      NextStart(subIdx, chunkSize);
      sliceStart := (subIdx + 1) * chunkSize;
    }
  }

  method SliceUnits(leafId: string, files: seq<string>, maxLeafTokens: int) returns (units: seq<ReviewUnit>)
    requires maxLeafTokens > 0
    ensures units == UnitsOf(leafId, files, maxLeafTokens)
  {
    if |files| * TOKENS_PER_FILE <= maxLeafTokens {
      return [ReviewUnit(leafId, 1, 1, files)];
    }
    SplitSizes(|files|, maxLeafTokens);
    var subCount := MathCeil(|files| * TOKENS_PER_FILE, maxLeafTokens);
    var chunkSize := MathCeil(|files|, subCount);
    units := CutSlices(leafId, files, chunkSize, subCount);
  }

  lemma FilesInAppend(a: seq<ReviewUnit>, b: seq<ReviewUnit>)
    ensures FilesIn(a + b) == FilesIn(a) + FilesIn(b)
  {
  }

  lemma {:induction false} FilesInFlatten(us: seq<ReviewUnit>)
    ensures FilesIn(us) == Elements(Flatten(Map(UnitFiles, us)))
  {
    if us == [] {
    } else {
      FilesInFlatten(us[1..]);
      assert us == [us[0]] + us[1..];
      FilesInAppend([us[0]], us[1..]);
      assert FilesIn([us[0]]) == Elements(us[0].files);
    }
  }

  method PlanUnits(leaves: seq<Leaf>, changedPaths: seq<string>, maxLeafTokens: int)
    returns (units: seq<ReviewUnit>, unionFiles: set<string>)
    requires maxLeafTokens > 0
    ensures units == AllUnits(leaves, changedPaths, maxLeafTokens)
    ensures unionFiles == FilesIn(units)
  {
    units, unionFiles := [], {};
    for i := 0 to |leaves|
      invariant units == AllUnits(leaves[..i], changedPaths, maxLeafTokens)
      invariant unionFiles == FilesIn(units)
    {
      assert leaves[..i + 1][..i] == leaves[..i];
      if leaves[i].id != "" {
        var files := LeafFileSet(leaves[i], changedPaths);
        var more := SliceUnits(leaves[i].id, files, maxLeafTokens);
        UnitsPartition(leaves[i].id, files, maxLeafTokens);
        FilesInFlatten(more);
        FilesInAppend(units, more);
        units, unionFiles := units + more, unionFiles + Elements(files);
      }
    }
    assert leaves[..|leaves|] == leaves;
  }

  /** `units` cut into batches of `size`, numbered from `done + 1`. */
  function Batches(units: seq<ReviewUnit>, size: nat, done: nat): seq<Batch>
    requires size > 0
    decreases |units|
  {
    if units == [] then []
    else
      var cut := Min(size, |units|);
      [Batch(done + 1, units[..cut])] + Batches(units[cut..], size, done + 1)
  }

  function BatchUnits(b: Batch): seq<ReviewUnit> { b.units }

  /** Packing loses nothing and keeps the order; batches are numbered 1, 2, ..., none is empty, none
      is larger than the batch size, and every batch but the last is full. */
  lemma {:induction false} BatchesPack(units: seq<ReviewUnit>, size: nat, done: nat)
    requires size > 0
    ensures var bs := Batches(units, size, done);
            && Flatten(Map(BatchUnits, bs)) == units
            && (forall i :: 0 <= i < |bs| ==> bs[i].index == done + i + 1 && 1 <= |bs[i].units| <= size)
            && (forall i :: 0 <= i < |bs| - 1 ==> |bs[i].units| == size)
            && (bs == [] <==> units == [])
    decreases |units|
  {
    if units == [] {
    } else {
      var cut := Min(size, |units|);
      BatchesPack(units[cut..], size, done + 1);
      var tail := Batches(units[cut..], size, done + 1);
      var bs := [Batch(done + 1, units[..cut])] + tail;
      assert bs[1..] == tail;
      assert units == units[..cut] + units[cut..];
      forall i | 0 <= i < |bs| - 1 ensures |bs[i].units| == size {
        if i > 0 {
          assert bs[i] == tail[i - 1];
        }
      }
    }
  }

  /** The first `i` units are in `batches`, as they should be. */
  ghost predicate Packed(units: seq<ReviewUnit>, batchSize: nat, i: nat, batches: seq<Batch>) {
    && batchSize > 0 && i <= |units|
    && batches + Batches(units[i..], batchSize, |batches|) == Batches(units, batchSize, 0)
  }

  lemma PackStep(units: seq<ReviewUnit>, batchSize: nat, i: nat, batches: seq<Batch>)
    requires Packed(units, batchSize, i, batches) && i < |units|
    ensures var end := Min(i + batchSize, |units|);
      Packed(units, batchSize, end, batches + [Batch(|batches| + 1, units[i..end])])
  {
    var end := Min(i + batchSize, |units|);
    var batch := Batch(|batches| + 1, units[i..end]);
    assert units[i..][..end - i] == units[i..end];
    assert units[i..][end - i..] == units[end..];
    assert Batches(units[i..], batchSize, |batches|) == [batch] + Batches(units[end..], batchSize, |batches| + 1);
    assert |batches + [batch]| == |batches| + 1;
  }

  lemma PackEnd(units: seq<ReviewUnit>, batchSize: nat, batches: seq<Batch>)
    requires Packed(units, batchSize, |units|, batches)
    ensures batches == Batches(units, batchSize, 0)
  {
    assert units[|units|..] == [];
  }

  method PackBatches(units: seq<ReviewUnit>, batchSize: nat) returns (batches: seq<Batch>)
    requires batchSize > 0
    ensures batches == Batches(units, batchSize, 0)
  {
    batches := [];
    var i := 0;
    while i < |units|
      invariant Packed(units, batchSize, i, batches)
    {
      var end := Min(i + batchSize, |units|);
      PackStep(units, batchSize, i, batches);
      batches := batches + [Batch(|batches| + 1, units[i..end])];
      i := end;
    }
    PackEnd(units, batchSize, batches);
  }

  predicate IsPlan(leaves: seq<Leaf>, changedPaths: seq<string>, batchSize: int, maxLeafTokens: int, plan: Plan) {
    && batchSize > 0 && maxLeafTokens > 0
    && plan.batches == Batches(AllUnits(leaves, changedPaths, maxLeafTokens), batchSize, 0)
    && plan.totalBatches == |plan.batches|
    && plan.totalFilesPlanned == |FilesIn(AllUnits(leaves, changedPaths, maxLeafTokens))|
  }

  method PlanSpecialistBatches(leaves: seq<Leaf>, changedPaths: seq<string>, tier: Option<string>,
                               batchSizeArg: Option<int>, maxLeafTokensArg: Option<int>) returns (plan: Plan)
    ensures IsPlan(leaves, changedPaths, PositiveOr(batchSizeArg, TierBatchSize(tier)),
                   PositiveOr(maxLeafTokensArg, DEFAULT_MAX_LEAF_TOKENS), plan)
  {
    var units, unionFiles := PlanUnits(leaves, changedPaths, PositiveOr(maxLeafTokensArg, DEFAULT_MAX_LEAF_TOKENS));
    var batches := PackBatches(units, PositiveOr(batchSizeArg, TierBatchSize(tier)));
    plan := Plan(batches, |batches|, |unionFiles|);
  }

  // ---- properties of every plan ------------------------------------------------------------

  function Key(u: ReviewUnit): (string, nat) { (u.leafId, u.subIndex) }

  lemma UnitsOfLeaf(leaf: Leaf, changedPaths: seq<string>, maxLeafTokens: int)
    requires maxLeafTokens > 0
    ensures var us := LeafUnits(leaf, changedPaths, maxLeafTokens);
      && (forall u :: u in us ==> u.leafId == leaf.id)
      && (forall a, b :: 0 <= a < b < |us| ==> Key(us[a]) != Key(us[b]))
  {
    if leaf.id != "" {
      UnitsPartition(leaf.id, LeafFiles(leaf, changedPaths), maxLeafTokens);
    }
  }

  lemma {:induction false} UnitsBelong(leaves: seq<Leaf>, changedPaths: seq<string>, maxLeafTokens: int, u: ReviewUnit)
    requires maxLeafTokens > 0 && u in AllUnits(leaves, changedPaths, maxLeafTokens)
    ensures exists i :: 0 <= i < |leaves| && leaves[i].id == u.leafId
  {
    var init, last := leaves[..|leaves| - 1], leaves[|leaves| - 1];
    if u in AllUnits(init, changedPaths, maxLeafTokens) {
      UnitsBelong(init, changedPaths, maxLeafTokens, u);
      var i :| 0 <= i < |init| && init[i].id == u.leafId;
      assert leaves[i].id == u.leafId;
    } else {
      UnitsOfLeaf(last, changedPaths, maxLeafTokens);
      assert leaves[|leaves| - 1].id == u.leafId;
    }
  }

  ghost predicate KeysDiffer(us: seq<ReviewUnit>) {
    forall a, b :: 0 <= a < b < |us| ==> Key(us[a]) != Key(us[b])
  }

  lemma KeysDifferAppend(us: seq<ReviewUnit>, more: seq<ReviewUnit>)
    requires KeysDiffer(us) && KeysDiffer(more)
    requires forall u, v :: u in us && v in more ==> Key(u) != Key(v)
    ensures KeysDiffer(us + more)
  {
  }

  /** With distinct leaf ids no two units share a key, so results filed by key cannot collide. */
  lemma {:induction false} KeysDistinct(leaves: seq<Leaf>, changedPaths: seq<string>, maxLeafTokens: int)
    requires maxLeafTokens > 0
    requires forall i, j :: 0 <= i < j < |leaves| ==> leaves[i].id != leaves[j].id
    ensures KeysDiffer(AllUnits(leaves, changedPaths, maxLeafTokens))
    ensures forall u :: u in AllUnits(leaves, changedPaths, maxLeafTokens) ==>
              exists i :: 0 <= i < |leaves| && leaves[i].id == u.leafId
  {
    if leaves == [] {
    } else {
      var init, last := leaves[..|leaves| - 1], leaves[|leaves| - 1];
      KeysDistinct(init, changedPaths, maxLeafTokens);
      UnitsOfLeaf(last, changedPaths, maxLeafTokens);
      var us, more := AllUnits(init, changedPaths, maxLeafTokens), LeafUnits(last, changedPaths, maxLeafTokens);
      forall u, v | u in us && v in more ensures Key(u) != Key(v) {
        var i :| 0 <= i < |init| && init[i].id == u.leafId;
        assert leaves[i].id != last.id;
      }
      KeysDifferAppend(us, more);
      forall u | u in AllUnits(leaves, changedPaths, maxLeafTokens)
        ensures exists i :: 0 <= i < |leaves| && leaves[i].id == u.leafId
      {
        UnitsBelong(leaves, changedPaths, maxLeafTokens, u);
      }
    }
  }

  lemma LeafFilesPlanned(leaf: Leaf, changedPaths: seq<string>, maxLeafTokens: int)
    requires maxLeafTokens > 0
    ensures FilesIn(LeafUnits(leaf, changedPaths, maxLeafTokens))
            == if leaf.id == "" then {} else Elements(LeafFiles(leaf, changedPaths))
  {
    if leaf.id != "" {
      UnitsPartition(leaf.id, LeafFiles(leaf, changedPaths), maxLeafTokens);
      FilesInFlatten(LeafUnits(leaf, changedPaths, maxLeafTokens));
    }
  }

  /** The files in scope of some leaf with an id. */
  function FilesInScope(leaves: seq<Leaf>, changedPaths: seq<string>): set<string> {
    set l, f | l in leaves && l.id != "" && f in LeafFiles(l, changedPaths) :: f
  }

  lemma ScopeSnoc(init: seq<Leaf>, last: Leaf, changedPaths: seq<string>)
    ensures FilesInScope(init + [last], changedPaths)
            == FilesInScope(init, changedPaths) + if last.id == "" then {} else Elements(LeafFiles(last, changedPaths))
  {
    assert last in init + [last] && forall l :: l in init + [last] <==> l in init || l == last;
  }

  lemma FilesPlannedSnoc(init: seq<Leaf>, last: Leaf, changedPaths: seq<string>, maxLeafTokens: int)
    requires maxLeafTokens > 0
    requires FilesIn(AllUnits(init, changedPaths, maxLeafTokens)) == FilesInScope(init, changedPaths)
    ensures FilesIn(AllUnits(init + [last], changedPaths, maxLeafTokens)) == FilesInScope(init + [last], changedPaths)
  {
    assert (init + [last])[..|init|] == init;
    FilesInAppend(AllUnits(init, changedPaths, maxLeafTokens), LeafUnits(last, changedPaths, maxLeafTokens));
    LeafFilesPlanned(last, changedPaths, maxLeafTokens);
    ScopeSnoc(init, last, changedPaths);
  }

  /** Every file in a leaf's scope is in some unit of that leaf, and nothing else is. */
  lemma {:induction false} EveryFilePlanned(leaves: seq<Leaf>, changedPaths: seq<string>, maxLeafTokens: int)
    requires maxLeafTokens > 0
    ensures FilesIn(AllUnits(leaves, changedPaths, maxLeafTokens)) == FilesInScope(leaves, changedPaths)
  {
    if leaves == [] {
    } else {
      var n := |leaves| - 1;
      EveryFilePlanned(leaves[..n], changedPaths, maxLeafTokens);
      FilesPlannedSnoc(leaves[..n], leaves[n], changedPaths, maxLeafTokens);
      PrefixSnoc(leaves, n + 1);
      assert leaves[..n + 1] == leaves;
    }
  }
}
