/** The dispatch loop, which replays one planned batch per iteration, and the merger, which folds the
    iterations back into one list of specialist outputs and refuses to lose a unit or a file. */
module Merger {
  import opened Util
  import opened Findings
  import opened Leaves
  import opened Planner
  import opened Trim
  import Fsm

  type UnitKey = (string, nat)

  datatype UnitOutput = UnitOutput(leafId: string, subIndex: nat, output: SpecialistOutput)

  function KeyOf(o: UnitOutput): UnitKey { (o.leafId, o.subIndex) }

  datatype Iteration = Iteration(batchIndex: nat, outputs: seq<UnitOutput>, loopDone: bool)

  // ---- the loop ----------------------------------------------------------------------------

  function NoResult(leafId: string): SpecialistOutput {
    SpecialistOutput(leafId, Failed, [], Some("no result"), NO_STAMP)
  }

  /** What the pool filed for a unit, or a failed stand-in when it filed nothing. */
  function OutputFor(results: map<UnitKey, SpecialistOutput>, u: ReviewUnit): SpecialistOutput {
    if Key(u) in results then results[Key(u)] else NoResult(u.leafId)
  }

  function Replayed(results: map<UnitKey, SpecialistOutput>, units: seq<ReviewUnit>): seq<UnitOutput> {
    Map((u: ReviewUnit) => UnitOutput(u.leafId, u.subIndex, OutputFor(results, u)), units)
  }

  function IterationAt(plan: Plan, results: map<UnitKey, SpecialistOutput>, batchIndex: nat): Iteration
    requires batchIndex >= 1
  {
    var units := if batchIndex - 1 < |plan.batches| then plan.batches[batchIndex - 1].units else [];
    Iteration(batchIndex, Replayed(results, units), batchIndex == plan.totalBatches)
  }

  /** The loop state is re-entered with iteration 1, 2, ... until it reports itself done or its cap is
      reached; it is skipped altogether when nothing was planned. */
  method DrainLoop(plan: Plan, results: map<UnitKey, SpecialistOutput>) returns (iters: seq<Iteration>)
    ensures |iters| == Min(plan.totalBatches, Fsm.MAX_ITERATIONS)
    ensures forall i :: 0 <= i < |iters| ==> iters[i] == IterationAt(plan, results, i + 1)
  {
    iters := [];
    if plan.totalBatches == 0 {
      return;
    }
    var iteration, done := 1, false;
    while !done && iteration <= Fsm.MAX_ITERATIONS
      invariant 1 <= iteration <= Fsm.MAX_ITERATIONS + 1 && |iters| == iteration - 1 <= plan.totalBatches
      invariant forall i :: 0 <= i < |iters| ==> iters[i] == IterationAt(plan, results, i + 1)
      invariant done <==> |iters| == plan.totalBatches
      decreases Fsm.MAX_ITERATIONS - iteration
    {
      var outputs := IterationAt(plan, results, iteration);
      iters, done, iteration := iters + [outputs], outputs.loopDone, iteration + 1;
    }
  }

  // ---- the merger --------------------------------------------------------------------------

  datatype MergeResult =
    | Merged(outputs: seq<SpecialistOutput>)
    | LoopExitedEarly(missing: set<UnitKey>)
    | MissedFile(found: nat, planned: nat)

  /** A dictionary that keeps the last value of a key at the position of its first insertion. */
  datatype Filed = Filed(order: seq<UnitKey>, byKey: map<UnitKey, UnitOutput>)

  function File(d: Filed, o: UnitOutput): Filed {
    var k := KeyOf(o);
    Filed(if k in d.byKey then d.order else d.order + [k], d.byKey[k := o])
  }

  function FileAll(outputs: seq<UnitOutput>): Filed {
    if outputs == [] then Filed([], map[]) else File(FileAll(outputs[..|outputs| - 1]), outputs[|outputs| - 1])
  }

  lemma {:induction false} FileAllShape(outputs: seq<UnitOutput>)
    ensures var d := FileAll(outputs);
            && Distinct(d.order) && (forall k :: k in d.order <==> k in d.byKey)
            && (forall k :: k in d.byKey <==> exists o :: o in outputs && KeyOf(o) == k)
            && (forall k :: k in d.byKey ==> d.byKey[k] in outputs && KeyOf(d.byKey[k]) == k)
  {
    if outputs == [] {
    } else {
      var init, last := outputs[..|outputs| - 1], outputs[|outputs| - 1];
      FileAllShape(init);
      assert outputs == init + [last];
    }
  }

  /** Under each key stands the last output filed there. */
  lemma {:induction false} LastFiled(outputs: seq<UnitOutput>, i: nat)
    requires i < |outputs| && forall j :: i < j < |outputs| ==> KeyOf(outputs[j]) != KeyOf(outputs[i])
    ensures KeyOf(outputs[i]) in FileAll(outputs).byKey && FileAll(outputs).byKey[KeyOf(outputs[i])] == outputs[i]
  {
    var n := |outputs| - 1;
    if i == n {
    } else {
      LastFiled(outputs[..n], i);
    }
  }

  function OutputsOf(i: Iteration): seq<UnitOutput> { i.outputs }

  function PlannedUnits(batches: seq<Batch>): seq<ReviewUnit> { Flatten(Map(BatchUnits, batches)) }

  function PlannedKeys(batches: seq<Batch>): set<UnitKey> {
    set u | u in PlannedUnits(batches) :: Key(u)
  }

  /** The files of the planned units whose key was filed. */
  function CoveredFiles(batches: seq<Batch>, filed: set<UnitKey>): set<string> {
    set u, f | u in PlannedUnits(batches) && Key(u) in filed && f in u.files :: f
  }

  ghost predicate Listed(d: Filed) { forall k :: k in d.order ==> k in d.byKey }

  /** The filed outputs in first-insertion order. */
  function InOrder(d: Filed): seq<SpecialistOutput>
    requires forall k :: k in d.order ==> k in d.byKey
  {
    seq(|d.order|, i requires 0 <= i < |d.order| => d.byKey[d.order[i]].output)
  }

  method FilesOfKey(units: seq<ReviewUnit>, k: UnitKey) returns (files: set<string>)
    ensures files == set u, f | u in units && Key(u) == k && f in u.files :: f
  {
    files := {};
    for i := 0 to |units|
      invariant files == set u, f | u in units[..i] && Key(u) == k && f in u.files :: f
    {
      PrefixSnoc(units, i + 1);
      assert forall u :: u in units[..i + 1] <==> u in units[..i] || u == units[i];
      if Key(units[i]) == k {
        files := files + Elements(units[i].files);
      }
    }
    assert units[..|units|] == units;
  }

  /** Adds up, filed key by filed key, the files of the planned units with that key. */
  method UnionOfFiles(batches: seq<Batch>, order: seq<UnitKey>) returns (unionFiles: set<string>)
    ensures unionFiles == CoveredFiles(batches, Elements(order))
  {
    unionFiles := {};
    for i := 0 to |order|
      invariant unionFiles == CoveredFiles(batches, Elements(order[..i]))
    {
      var more := FilesOfKey(PlannedUnits(batches), order[i]);
      PrefixSnoc(order, i + 1);
      assert Elements(order[..i + 1]) == Elements(order[..i]) + {order[i]};
      unionFiles := unionFiles + more;
    }
    assert order[..|order|] == order;
  }

  lemma FileSnoc(outputs: seq<UnitOutput>, o: UnitOutput)
    ensures FileAll(outputs + [o]) == File(FileAll(outputs), o)
  {
    assert (outputs + [o])[..|outputs|] == outputs;
  }

  method FoldOutputs(d0: Filed, ghost before: seq<UnitOutput>, outputs: seq<UnitOutput>) returns (d: Filed)
    requires d0 == FileAll(before)
    ensures d == FileAll(before + outputs)
  {
    d := d0;
    assert before + outputs[..0] == before;
    for j := 0 to |outputs|
      invariant d == FileAll(before + outputs[..j])
    {
      FileSnoc(before + outputs[..j], outputs[j]);
      assert before + outputs[..j] + [outputs[j]] == before + outputs[..j + 1];
      d := File(d, outputs[j]);
    }
    assert outputs[..|outputs|] == outputs;
  }

  lemma FlattenSnoc(iters: seq<Iteration>, i: Iteration)
    ensures Flatten(Map(OutputsOf, iters + [i])) == Flatten(Map(OutputsOf, iters)) + i.outputs
  {
    assert Map(OutputsOf, iters + [i]) == Map(OutputsOf, iters) + [i.outputs];
    FlattenAppend(Map(OutputsOf, iters), [i.outputs]);
    assert Flatten([i.outputs]) == i.outputs + Flatten([]);
  }

  method FoldIterations(iters: seq<Iteration>) returns (d: Filed)
    ensures d == FileAll(Flatten(Map(OutputsOf, iters)))
  {
    d := Filed([], map[]);
    for i := 0 to |iters|
      invariant d == FileAll(Flatten(Map(OutputsOf, iters[..i])))
    {
      FlattenSnoc(iters[..i], iters[i]);
      assert iters[..i + 1] == iters[..i] + [iters[i]];
      d := FoldOutputs(d, Flatten(Map(OutputsOf, iters[..i])), iters[i].outputs);
    }
    assert iters[..|iters|] == iters;
  }

  /** The merger. It also hands back the files it found reviewed, which the handler only counts. */
  method MergeSpecialistOutputs(plan: Plan, iters: seq<Iteration>, size: SpecialistOutput -> nat, budget: nat)
    returns (result: MergeResult, unionFiles: set<string>)
    ensures var d := FileAll(Flatten(Map(OutputsOf, iters)));
            if !(PlannedKeys(plan.batches) <= d.byKey.Keys)
            then result == LoopExitedEarly(PlannedKeys(plan.batches) - d.byKey.Keys)
            else
              && unionFiles == CoveredFiles(plan.batches, d.byKey.Keys)
              && (if |unionFiles| < plan.totalFilesPlanned
                  then result == MissedFile(|unionFiles|, plan.totalFilesPlanned)
                  else result.Merged? && Listed(d) && result.outputs == Trimmed(InOrder(d), size, budget))
  {
    var d := FoldIterations(iters);
    FileAllShape(Flatten(Map(OutputsOf, iters)));
    var planned := PlannedKeys(plan.batches);
    unionFiles := {};
    if !(planned <= d.byKey.Keys) {
      result := LoopExitedEarly(planned - d.byKey.Keys);
      return;
    }
    unionFiles := UnionOfFiles(plan.batches, d.order);
    assert Elements(d.order) == d.byKey.Keys;
    var outs := new SpecialistOutput[|d.order|](i requires 0 <= i < |d.order| => d.byKey[d.order[i]].output);
    assert outs[..] == InOrder(d);
    var aggregate := TrimToBudget(outs, size, budget);
    if |unionFiles| < plan.totalFilesPlanned {
      result := MissedFile(|unionFiles|, plan.totalFilesPlanned);
    } else {
      result := Merged(outs[..]);
    }
  }

  // ---- end to end --------------------------------------------------------------------------

  lemma PlannedSnoc(batches: seq<Batch>, b: Batch)
    ensures PlannedUnits(batches + [b]) == PlannedUnits(batches) + b.units
  {
    assert Map(BatchUnits, batches + [b]) == Map(BatchUnits, batches) + [b.units];
    FlattenAppend(Map(BatchUnits, batches), [b.units]);
    assert Flatten([b.units]) == b.units + Flatten([]);
  }

  lemma ReplayedAppend(results: map<UnitKey, SpecialistOutput>, a: seq<ReviewUnit>, b: seq<ReviewUnit>)
    ensures Replayed(results, a + b) == Replayed(results, a) + Replayed(results, b)
  {
  }

  lemma ReplayStep(results: map<UnitKey, SpecialistOutput>, batches: seq<Batch>, b: Batch, init: seq<Iteration>,
                   i: Iteration)
    requires Flatten(Map(OutputsOf, init)) == Replayed(results, PlannedUnits(batches))
    requires i.outputs == Replayed(results, b.units)
    ensures Flatten(Map(OutputsOf, init + [i])) == Replayed(results, PlannedUnits(batches + [b]))
  {
    FlattenSnoc(init, i);
    PlannedSnoc(batches, b);
    ReplayedAppend(results, PlannedUnits(batches), b.units);
  }

  /** The iterations put end to end are the replay of the units of the batches they covered. */
  lemma {:induction false} LoopReplaysBatches(plan: Plan, results: map<UnitKey, SpecialistOutput>,
                                              iters: seq<Iteration>)
    requires |iters| <= |plan.batches|
    requires forall i :: 0 <= i < |iters| ==> iters[i] == IterationAt(plan, results, i + 1)
    ensures Flatten(Map(OutputsOf, iters)) == Replayed(results, PlannedUnits(plan.batches[..|iters|]))
  {
    var n := |iters|;
    if n == 0 {
    } else {
      PrefixSnoc(iters, n);
      PrefixSnoc(plan.batches, n);
      LoopReplaysBatches(plan, results, iters[..n - 1]);
      ReplayStep(results, plan.batches[..n - 1], plan.batches[n - 1], iters[..n - 1], iters[n - 1]);
      assert iters[..n] == iters;
    }
  }

  lemma ReplayedKeys(results: map<UnitKey, SpecialistOutput>, units: seq<ReviewUnit>)
    ensures FileAll(Replayed(results, units)).byKey.Keys == set u | u in units :: Key(u)
  {
    var outs := Replayed(results, units);
    var d := FileAll(outs);
    FileAllShape(outs);
    forall u | u in units ensures Key(u) in d.byKey {
      var i :| 0 <= i < |units| && units[i] == u;
      assert outs[i] in outs && KeyOf(outs[i]) == Key(u);
    }
    forall k | k in d.byKey ensures exists u :: u in units && Key(u) == k {
      var i :| 0 <= i < |outs| && outs[i] == d.byKey[k];
      assert units[i] in units && Key(units[i]) == k;
    }
  }

  lemma FreshKey(results: map<UnitKey, SpecialistOutput>, init: seq<ReviewUnit>, last: ReviewUnit)
    requires forall a :: 0 <= a < |init| ==> Key(init[a]) != Key(last)
    ensures var d := FileAll(Replayed(results, init));
            var o := UnitOutput(last.leafId, last.subIndex, OutputFor(results, last));
      FileAll(Replayed(results, init + [last])) == Filed(d.order + [Key(last)], d.byKey[Key(last) := o])
      && Key(last) !in d.byKey
  {
    ReplayedAppend(results, init, [last]);
    FileSnoc(Replayed(results, init), Replayed(results, [last])[0]);
    ReplayedKeys(results, init);
  }

  ghost predicate InPlanningOrder(d: Filed, results: map<UnitKey, SpecialistOutput>, units: seq<ReviewUnit>) {
    && |d.order| == |units| && (forall k :: k in d.order ==> k in d.byKey)
    && (forall i :: 0 <= i < |units| ==> d.order[i] == Key(units[i]))
    && (forall i :: 0 <= i < |units| ==>
          Key(units[i]) in d.byKey && d.byKey[Key(units[i])].output == OutputFor(results, units[i]))
  }

  lemma OrderSnoc(d: Filed, results: map<UnitKey, SpecialistOutput>, init: seq<ReviewUnit>,
                                     last: ReviewUnit)
    requires InPlanningOrder(d, results, init) && Key(last) !in d.byKey
    ensures var o := UnitOutput(last.leafId, last.subIndex, OutputFor(results, last));
      InPlanningOrder(Filed(d.order + [Key(last)], d.byKey[Key(last) := o]), results, init + [last])
  {
  }

  /** With distinct keys the dictionary lists the units' outputs in planning order. */
  lemma InOrderSnoc(results: map<UnitKey, SpecialistOutput>, init: seq<ReviewUnit>, last: ReviewUnit)
    requires forall a :: 0 <= a < |init| ==> Key(init[a]) != Key(last)
    requires InPlanningOrder(FileAll(Replayed(results, init)), results, init)
    ensures InPlanningOrder(FileAll(Replayed(results, init + [last])), results, init + [last])
  {
    FreshKey(results, init, last);
    OrderSnoc(FileAll(Replayed(results, init)), results, init, last);
  }

  lemma {:induction false} ReplayedInOrder(results: map<UnitKey, SpecialistOutput>, units: seq<ReviewUnit>)
    requires forall a, b :: 0 <= a < b < |units| ==> Key(units[a]) != Key(units[b])
    ensures InPlanningOrder(FileAll(Replayed(results, units)), results, units)
  {
    if units == [] {
    } else {
      var init, last := units[..|units| - 1], units[|units| - 1];
      assert units == init + [last];
      ReplayedInOrder(results, init);
      InOrderSnoc(results, init, last);
    }
  }

  /** What the units of a plan came to, in planning order. */
  function UnitOutputs(results: map<UnitKey, SpecialistOutput>, units: seq<ReviewUnit>): seq<SpecialistOutput> {
    Map((u: ReviewUnit) => OutputFor(results, u), units)
  }

  /** A unit has the output filed for it; one nobody filed stands as failed, without findings. */
  lemma UnitOutputsTell(results: map<UnitKey, SpecialistOutput>, units: seq<ReviewUnit>, i: nat)
    requires i < |units|
    ensures var o, k := UnitOutputs(results, units)[i], (units[i].leafId, units[i].subIndex);
      && (k in results ==> o == results[k])
      && (k !in results ==> o.id == units[i].leafId && o.status == Failed && o.findings == []
                            && o.skipReason == Some("no result"))
  {
  }

  lemma FiledIsUnitOutputs(d: Filed, results: map<UnitKey, SpecialistOutput>, units: seq<ReviewUnit>)
    requires InPlanningOrder(d, results, units)
    ensures InOrder(d) == UnitOutputs(results, units)
  {
  }

  lemma FiledOnce(outputs: seq<UnitOutput>)
    ensures var d := FileAll(outputs); (forall k :: k in d.order <==> k in d.byKey) && |d.order| == |d.byKey.Keys|
  {
    var d := FileAll(outputs);
    FileAllShape(outputs);
    DistinctLength(d.order, d.byKey.Keys);
    assert Elements(d.order) == d.byKey.Keys;
  }

  /** Within the cap the loop replays the whole plan. */
  lemma WholePlanReplayed(plan: Plan, units: seq<ReviewUnit>, results: map<UnitKey, SpecialistOutput>,
                                             iters: seq<Iteration>)
    requires units == PlannedUnits(plan.batches) && |iters| == |plan.batches|
    requires forall i :: 0 <= i < |iters| ==> iters[i] == IterationAt(plan, results, i + 1)
    ensures Flatten(Map(OutputsOf, iters)) == Replayed(results, units)
  {
    LoopReplaysBatches(plan, results, iters);
    assert plan.batches[..|iters|] == plan.batches;
  }

  lemma PlanCovers(plan: Plan, units: seq<ReviewUnit>)
    requires units == PlannedUnits(plan.batches)
    ensures CoveredFiles(plan.batches, PlannedKeys(plan.batches)) == FilesIn(units)
  {
    forall u | u in units ensures Key(u) in PlannedKeys(plan.batches) {
    }
  }

  lemma MergedPlan(leaves: seq<Leaf>, changedPaths: seq<string>, batchSize: int, maxLeafTokens: int,
                                      plan: Plan, results: map<UnitKey, SpecialistOutput>, iters: seq<Iteration>)
    requires IsPlan(leaves, changedPaths, batchSize, maxLeafTokens, plan)
    requires |iters| == Min(plan.totalBatches, Fsm.MAX_ITERATIONS)
    requires forall i :: 0 <= i < |iters| ==> iters[i] == IterationAt(plan, results, i + 1)
    ensures var d := FileAll(Flatten(Map(OutputsOf, iters)));
            && (forall k :: k in d.order ==> k in d.byKey)
            && (plan.totalBatches <= Fsm.MAX_ITERATIONS ==>
                 && d.byKey.Keys == PlannedKeys(plan.batches)
                 && |d.order| == |PlannedKeys(plan.batches)|
                 && CoveredFiles(plan.batches, d.byKey.Keys) == FilesIn(AllUnits(leaves, changedPaths, maxLeafTokens)))
  {
    var units := AllUnits(leaves, changedPaths, maxLeafTokens);
    FiledOnce(Flatten(Map(OutputsOf, iters)));
    if plan.totalBatches <= Fsm.MAX_ITERATIONS {
      BatchesPack(units, batchSize, 0);
      WholePlanReplayed(plan, units, results, iters);
      ReplayedKeys(results, units);
      PlanCovers(plan, units);
    }
  }

  lemma UnreachedUnit(batches: seq<Batch>, n: nat)
    requires n < |batches| && batches[n].units != []
    ensures |PlannedUnits(batches[..n])| < |PlannedUnits(batches)|
    ensures PlannedUnits(batches)[..|PlannedUnits(batches[..n])|] == PlannedUnits(batches[..n])
  {
    var early, late := batches[..n], batches[n..];
    assert batches == early + late;
    assert Map(BatchUnits, batches) == Map(BatchUnits, early) + Map(BatchUnits, late);
    FlattenAppend(Map(BatchUnits, early), Map(BatchUnits, late));
    assert PlannedUnits(late) == late[0].units + Flatten(Map(BatchUnits, late)[1..]);
  }

  /** A batch the loop never reached has a unit whose key no earlier batch carries. */
  lemma {:induction false} LeftBehind(plan: Plan, units: seq<ReviewUnit>, results: map<UnitKey, SpecialistOutput>,
                                      iters: seq<Iteration>)
    requires units == PlannedUnits(plan.batches) && |iters| < |plan.batches|
    requires forall a, b :: 0 <= a < b < |units| ==> Key(units[a]) != Key(units[b])
    requires forall i :: 0 <= i < |plan.batches| ==> plan.batches[i].units != []
    requires Flatten(Map(OutputsOf, iters)) == Replayed(results, PlannedUnits(plan.batches[..|iters|]))
    ensures !(PlannedKeys(plan.batches) <= FileAll(Flatten(Map(OutputsOf, iters))).byKey.Keys)
  {
    var n := |iters|;
    var a := PlannedUnits(plan.batches[..n]);
    UnreachedUnit(plan.batches, n);
    var u := units[|a|];
    ReplayedKeys(results, a);
    assert Key(u) in PlannedKeys(plan.batches);
    forall v | v in a ensures Key(v) != Key(u) {
      var i :| 0 <= i < |a| && a[i] == v;
      assert units[i] == v;
    }
  }

  lemma DistinctPlan(leaves: seq<Leaf>, changedPaths: seq<string>, batchSize: int,
                                        maxLeafTokens: int, plan: Plan,
                                        results: map<UnitKey, SpecialistOutput>, iters: seq<Iteration>)
    requires IsPlan(leaves, changedPaths, batchSize, maxLeafTokens, plan)
    requires forall i, j :: 0 <= i < j < |leaves| ==> leaves[i].id != leaves[j].id
    requires |iters| == Min(plan.totalBatches, Fsm.MAX_ITERATIONS)
    requires forall i :: 0 <= i < |iters| ==> iters[i] == IterationAt(plan, results, i + 1)
    ensures var d, units := FileAll(Flatten(Map(OutputsOf, iters))), AllUnits(leaves, changedPaths, maxLeafTokens);
            && (PlannedKeys(plan.batches) <= d.byKey.Keys <==> plan.totalBatches <= Fsm.MAX_ITERATIONS)
            && (plan.totalBatches <= Fsm.MAX_ITERATIONS ==> InPlanningOrder(d, results, units))
  {
    var units := AllUnits(leaves, changedPaths, maxLeafTokens);
    KeysDistinct(leaves, changedPaths, maxLeafTokens);
    MergedPlan(leaves, changedPaths, batchSize, maxLeafTokens, plan, results, iters);
    LoopReplaysBatches(plan, results, iters);
    BatchesPack(units, batchSize, 0);
    if plan.totalBatches <= Fsm.MAX_ITERATIONS {
      WholePlanReplayed(plan, units, results, iters);
      ReplayedInOrder(results, units);
    } else {
      LeftBehind(plan, units, results, iters);
    }
  }

  /** Draining a planner's plan and merging the result never loses a unit or a file, whatever the pool
      answered: for a plan within the loop's cap neither error is raised, every planned key has its
      output, the files the merger finds reviewed are exactly the planner's, and with distinct leaf ids
      the list is the units' outputs in planning order as the size guard leaves them. Beyond the cap
      the merger always reports the units the loop left behind. */
  method DrainAndMerge(leaves: seq<Leaf>, changedPaths: seq<string>, batchSize: int, maxLeafTokens: int, plan: Plan,
                       results: map<UnitKey, SpecialistOutput>, size: SpecialistOutput -> nat, budget: nat)
    returns (result: MergeResult, unionFiles: set<string>)
    requires IsPlan(leaves, changedPaths, batchSize, maxLeafTokens, plan)
    ensures plan.totalBatches <= Fsm.MAX_ITERATIONS ==>
              result.Merged? && |result.outputs| == |PlannedKeys(plan.batches)|
              && unionFiles == FilesIn(AllUnits(leaves, changedPaths, maxLeafTokens))
    ensures (forall i, j :: 0 <= i < j < |leaves| ==> leaves[i].id != leaves[j].id) ==>
              var units := AllUnits(leaves, changedPaths, maxLeafTokens);
              && (result.Merged? <==> plan.totalBatches <= Fsm.MAX_ITERATIONS)
              && (!result.Merged? ==> result.LoopExitedEarly?)
              && (result.Merged? ==> result.outputs == Trimmed(UnitOutputs(results, units), size, budget))
  {
    var iters := DrainLoop(plan, results);
    result, unionFiles := MergeSpecialistOutputs(plan, iters, size, budget);
    MergedPlan(leaves, changedPaths, batchSize, maxLeafTokens, plan, results, iters);
    if plan.totalBatches <= Fsm.MAX_ITERATIONS {
      TrimmedWell(InOrder(FileAll(Flatten(Map(OutputsOf, iters)))), size, budget);
    }
    if forall i, j :: 0 <= i < j < |leaves| ==> leaves[i].id != leaves[j].id {
      DistinctPlan(leaves, changedPaths, batchSize, maxLeafTokens, plan, results, iters);
      if plan.totalBatches <= Fsm.MAX_ITERATIONS {
        var units := AllUnits(leaves, changedPaths, maxLeafTokens);
        FiledIsUnitOutputs(FileAll(Flatten(Map(OutputsOf, iters))), results, units);
      }
    }
  }
}
