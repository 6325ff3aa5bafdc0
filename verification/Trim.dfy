/** The aggregate-size guard: while the outputs together exceed the budget, the largest one loses its
    least severe finding. Sizes are those of the serialised outputs, here any function of them. */
module Trim {
  import opened Util
  import opened Findings
  import Sorting
  import Text

  /** This ranking, unlike the others, ignores the letter case of the severity. */
  function TrimRank(r: Report): nat { SeverityRank(Text.Lower(r.severity)) }

  predicate RankLe(a: Report, b: Report) { TrimRank(a) <= TrimRank(b) }

  /** The findings in the order in which they would be given up. */
  function Sacrifice(findings: seq<Report>): (r: seq<Report>)
    ensures |r| == |findings|
  {
    Sorting.SortElements(RankLe, findings);
    Sorting.Sort(RankLe, findings)
  }

  /** An output that has given up its `k` least severe findings. */
  function Shrunk(o: SpecialistOutput, k: nat): SpecialistOutput
    requires k <= |o.findings|
  {
    if k == 0 then o else o.(findings := Sacrifice(o.findings)[k..])
  }

  lemma RankOrder()
    ensures Sorting.TotalPreorder(RankLe)
  {
  }

  /** What a shrunk output keeps: same envelope; kept and dropped findings make up the original ones;
      nothing dropped outranks anything kept. */
  lemma ShrunkKeepsSevere(o: SpecialistOutput, k: nat)
    requires k <= |o.findings|
    ensures var kept, dropped := Shrunk(o, k).findings, if k == 0 then [] else Sacrifice(o.findings)[..k];
            && Shrunk(o, k) == o.(findings := kept) && |kept| == |o.findings| - k
            && multiset(dropped) + multiset(kept) == multiset(o.findings)
            && forall d, r :: d in dropped && r in kept ==> TrimRank(d) <= TrimRank(r)
  {
    RankOrder();
    Sorting.SortMultiset(RankLe, o.findings);
    Sorting.SortSorted(RankLe, o.findings);
    var s := Sacrifice(o.findings);
    if k > 0 {
      assert s == s[..k] + s[k..];
      forall d, r | d in s[..k] && r in s[k..] ensures TrimRank(d) <= TrimRank(r) {
        var i :| 0 <= i < k && s[i] == d;
        var j :| 0 <= j < |s[k..]| && s[k..][j] == r;
        assert RankLe(s[i], s[k + j]);
      }
    }
  }

  /** In any case, critical outranks important, which outranks minor, which outranks anything else. */
  predicate NoMoreSevere(dropped: Report, kept: Report) {
    var x, y := Text.Lower(dropped.severity), Text.Lower(kept.severity);
    && (x == "critical" ==> y == "critical")
    && (x == "important" ==> y in {"critical", "important"})
    && (x == "minor" ==> y in {"critical", "important", "minor"})
  }

  /** Cutting an output down to size gives up its least severe findings. */
  lemma MildestGoFirst(o: SpecialistOutput, k: nat, dropped: Report, kept: Report)
    requires 0 < k <= |o.findings| && dropped in Sacrifice(o.findings)[..k] && kept in Shrunk(o, k).findings
    ensures NoMoreSevere(dropped, kept)
  {
    ShrunkKeepsSevere(o, k);
    assert TrimRank(dropped) <= TrimRank(kept);
  }

  lemma ShrinkOnce(o: SpecialistOutput, k: nat)
    requires k < |o.findings|
    ensures var c := Shrunk(o, k);
            |Sacrifice(c.findings)| > 0 && c.(findings := Sacrifice(c.findings)[1..]) == Shrunk(o, k + 1)
  {
    var s := Sacrifice(o.findings);
    if k > 0 {
      RankOrder();
      Sorting.SortSorted(RankLe, o.findings);
      Sorting.SortFixed(RankLe, s[k..]);
      assert s[k..][1..] == s[k + 1..];
    }
  }

  predicate IsLargest(outs: seq<SpecialistOutput>, size: SpecialistOutput -> nat, t: nat) {
    && t < |outs|
    && (forall j :: 0 <= j < |outs| ==> size(outs[j]) <= size(outs[t]))
    && (forall j :: 0 <= j < t ==> size(outs[j]) < size(outs[t]))
  }

  /** Python's `max`: the first of the largest. */
  function FirstLargest(outs: seq<SpecialistOutput>, size: SpecialistOutput -> nat): (t: nat)
    requires outs != []
    ensures IsLargest(outs, size, t)
  {
    var n := |outs| - 1;
    if n == 0 then 0
    else
      var t := FirstLargest(outs[..n], size);
      assert forall j :: 0 <= j < n ==> outs[..n][j] == outs[j];
      if size(outs[n]) > size(outs[t]) then n else t
  }

  lemma OneFirstLargest(outs: seq<SpecialistOutput>, size: SpecialistOutput -> nat, t: nat, u: nat)
    requires IsLargest(outs, size, t) && IsLargest(outs, size, u)
    ensures t == u
  {
    assert size(outs[t]) == size(outs[u]);
  }

  method Largest(outs: array<SpecialistOutput>, size: SpecialistOutput -> nat) returns (t: nat)
    requires outs.Length > 0
    ensures t == FirstLargest(outs[..], size)
  {
    t := 0;
    for i := 1 to outs.Length
      invariant t < outs.Length
      invariant forall j :: 0 <= j < i ==> size(outs[j]) <= size(outs[t])
      invariant forall j :: 0 <= j < t ==> size(outs[j]) < size(outs[t])
    {
      if size(outs[i]) > size(outs[t]) {
        t := i;
      }
    }
    OneFirstLargest(outs[..], size, t, FirstLargest(outs[..], size));
  }

  predicate Unshrinkable(o: SpecialistOutput, size: SpecialistOutput -> nat) {
    o.findings == [] || size(Shrunk(o, 1)) >= size(o)
  }

  /** Nothing left to gain: the first largest output is bare, or dropping a finding would not shrink it. */
  ghost predicate Exhausted(outs: seq<SpecialistOutput>, size: SpecialistOutput -> nat) {
    exists t: nat :: IsLargest(outs, size, t) && Unshrinkable(outs[t], size)
  }

  /** Drops one finding from the largest output, unless that would not shrink it. */
  method TrimLowest(outs: array<SpecialistOutput>, size: SpecialistOutput -> nat)
    returns (trimmed: bool, freed: nat, target: nat)
    modifies outs
    ensures !trimmed ==> outs[..] == old(outs[..]) && freed == 0
    ensures !trimmed && outs.Length > 0 ==> Unshrinkable(outs[FirstLargest(outs[..], size)], size)
    ensures trimmed ==> outs.Length > 0 && target == FirstLargest(old(outs[..]), size)
    ensures trimmed ==> !Unshrinkable(old(outs[..])[target], size)
    ensures trimmed ==> outs[..] == old(outs[..])[target := Shrunk(old(outs[..])[target], 1)]
    ensures trimmed ==> freed == size(old(outs[..])[target]) - size(outs[target])
  {
    trimmed, freed, target := false, 0, 0;
    if outs.Length == 0 {
      return;
    }
    target := Largest(outs, size);
    if outs[target].findings == [] {
      return;
    }
    var findings := outs[target].findings;
    var beforeSize := size(outs[target]);
    var sortedFindings := Sacrifice(findings);
    outs[target] := outs[target].(findings := sortedFindings[1..]);
    var afterSize := size(outs[target]);
    if afterSize >= beforeSize {
      outs[target] := outs[target].(findings := findings);
      assert outs[..] == old(outs[..]);
      return;
    }
    trimmed, freed := true, beforeSize - afterSize;
  }

  function CountFindings(o: SpecialistOutput): int { |o.findings| }

  /** Each output has given up some number of its least severe findings. */
  ghost predicate TrimmedFrom(outs: seq<SpecialistOutput>, original: seq<SpecialistOutput>, given: seq<nat>) {
    && |outs| == |original| == |given|
    && forall i :: 0 <= i < |outs| ==> given[i] <= |original[i].findings| && outs[i] == Shrunk(original[i], given[i])
  }

  /** Every output is the original one short of some of its least severe findings. */
  ghost predicate TrimmedSomehow(outs: seq<SpecialistOutput>, original: seq<SpecialistOutput>) {
    exists given :: TrimmedFrom(outs, original, given)
  }

  /** The serialised size of a whole list of outputs. */
  function TotalSize(outs: seq<SpecialistOutput>, size: SpecialistOutput -> nat): int {
    Sum((o: SpecialistOutput) => size(o) as int, outs)
  }

  lemma {:induction false} CountsNonNegative(outs: seq<SpecialistOutput>)
    ensures Sum(CountFindings, outs) >= 0
  {
    if outs == [] {
    } else {
      CountsNonNegative(outs[1..]);
    }
  }

  lemma AllBare(outs: seq<SpecialistOutput>, t: nat)
    requires Sum(CountFindings, outs) <= 0 && t < |outs|
    ensures outs[t].findings == []
  {
    SumUpdate(CountFindings, outs, t, outs[t].(findings := []));
    CountsNonNegative(outs[t := outs[t].(findings := [])]);
  }

  function FindingsLeft(outs: seq<SpecialistOutput>): (n: nat) {
    CountsNonNegative(outs);
    Sum(CountFindings, outs)
  }

  lemma ShrinkCounts(outs: seq<SpecialistOutput>, t: nat)
    requires t < |outs| && outs[t].findings != []
    ensures FindingsLeft(outs[t := Shrunk(outs[t], 1)]) == FindingsLeft(outs) - 1
  {
    ShrunkKeepsSevere(outs[t], 1);
    SumUpdate(CountFindings, outs, t, Shrunk(outs[t], 1));
  }

  /** What the guard comes to: while the total exceeds the budget, the first largest output gives up
      its least severe finding, until that no longer shrinks it. */
  function Trimmed(outs: seq<SpecialistOutput>, size: SpecialistOutput -> nat, budget: nat): seq<SpecialistOutput>
    decreases FindingsLeft(outs)
  {
    if TotalSize(outs, size) <= budget || outs == [] then outs
    else
      var t := FirstLargest(outs, size);
      if Unshrinkable(outs[t], size) then outs
      else
        ShrinkCounts(outs, t);
        Trimmed(outs[t := Shrunk(outs[t], 1)], size, budget)
  }

  /** With no findings left there is nothing to give up. */
  lemma BareStays(outs: seq<SpecialistOutput>, size: SpecialistOutput -> nat, budget: nat)
    requires FindingsLeft(outs) == 0
    ensures Trimmed(outs, size, budget) == outs
  {
    if outs != [] {
      AllBare(outs, FirstLargest(outs, size));
    }
  }

  /** The guard in place. The running aggregate is always the true sum, and the cap on the passes, one
      per finding, never cuts the loop short. */
  method TrimToBudget(outs: array<SpecialistOutput>, size: SpecialistOutput -> nat, budget: nat)
    returns (aggregate: int)
    modifies outs
    ensures outs[..] == Trimmed(old(outs[..]), size, budget)
    ensures aggregate == TotalSize(outs[..], size)
  {
    aggregate := TotalSize(outs[..], size);
    var maxPasses := FindingsLeft(outs[..]);
    var passes := 0;
    while aggregate > budget && passes < maxPasses
      invariant Trimmed(outs[..], size, budget) == Trimmed(old(outs[..]), size, budget)
      invariant aggregate == TotalSize(outs[..], size)
      invariant passes + FindingsLeft(outs[..]) == maxPasses
    {
      ghost var before := outs[..];
      var trimmed, freed, t := TrimLowest(outs, size);
      if !trimmed {
        return;
      }
      ShrinkCounts(before, t);
      SumUpdate((o: SpecialistOutput) => size(o) as int, before, t, outs[t]);
      aggregate := aggregate - freed;
      passes := passes + 1;
    }
    if aggregate > budget {
      BareStays(outs[..], size, budget);
    }
  }

  lemma OnePass(outs: seq<SpecialistOutput>, original: seq<SpecialistOutput>, given: seq<nat>, t: nat)
    requires TrimmedFrom(outs, original, given) && t < |outs| && outs[t].findings != []
    ensures given[t] < |original[t].findings|
    ensures TrimmedFrom(outs[t := Shrunk(outs[t], 1)], original, given[t := given[t] + 1])
    ensures Sum(CountFindings, outs[t := Shrunk(outs[t], 1)]) == Sum(CountFindings, outs) - 1
  {
    ShrunkKeepsSevere(original[t], given[t]);
    ShrunkKeepsSevere(outs[t], 1);
    ShrinkOnce(original[t], given[t]);
    SumUpdate(CountFindings, outs, t, Shrunk(outs[t], 1));
  }

  lemma {:induction false} TrimmedFurther(outs: seq<SpecialistOutput>, original: seq<SpecialistOutput>, given: seq<nat>,
                                          size: SpecialistOutput -> nat, budget: nat)
    requires TrimmedFrom(outs, original, given)
    ensures var r := Trimmed(outs, size, budget);
      TrimmedSomehow(r, original) && (TotalSize(r, size) <= budget || Exhausted(r, size))
    decreases FindingsLeft(outs)
  {
    if TotalSize(outs, size) <= budget || outs == [] {
    } else {
      var t := FirstLargest(outs, size);
      if !Unshrinkable(outs[t], size) {
        OnePass(outs, original, given, t);
        ShrinkCounts(outs, t);
        TrimmedFurther(outs[t := Shrunk(outs[t], 1)], original, given[t := given[t] + 1], size, budget);
      }
    }
  }

  /** No output is ever removed; each is the original one short of some of its least severe findings;
      and it stops within the budget or exhausted. */
  lemma TrimmedWell(outs: seq<SpecialistOutput>, size: SpecialistOutput -> nat, budget: nat)
    ensures var r := Trimmed(outs, size, budget);
      TrimmedSomehow(r, outs) && (TotalSize(r, size) <= budget || Exhausted(r, size))
  {
    TrimmedFurther(outs, outs, seq(|outs|, _ => 0), size, budget);
  }

  /** Where giving up a finding of the first largest output saves nothing, the outputs are left alone. */
  lemma NothingSaved(outs: seq<SpecialistOutput>, t: nat, size: SpecialistOutput -> nat, budget: nat)
    requires IsLargest(outs, size, t)
    requires outs[t].findings == [] || size(outs[t]) <= size(outs[t].(findings := Sacrifice(outs[t].findings)[1..]))
    ensures Trimmed(outs, size, budget) == outs
  {
    OneFirstLargest(outs, size, t, FirstLargest(outs, size));
  }

  /** Outputs one step before the end: still over the budget. */
  ghost predicate LastDrop(before: seq<SpecialistOutput>, t: nat, after: seq<SpecialistOutput>,
                           size: SpecialistOutput -> nat, budget: nat) {
    t < |before| && before[t].findings != [] && TotalSize(before, size) > budget
    && after == before[t := Shrunk(before[t], 1)]
  }

  lemma {:induction false} NoDropBeyond(outs: seq<SpecialistOutput>, original: seq<SpecialistOutput>, given: seq<nat>,
                                        size: SpecialistOutput -> nat, budget: nat)
    requires TrimmedFrom(outs, original, given)
    ensures var r := Trimmed(outs, size, budget);
      r == outs || exists before, t :: TrimmedSomehow(before, original) && LastDrop(before, t, r, size, budget)
    decreases FindingsLeft(outs)
  {
    if TotalSize(outs, size) <= budget || outs == [] {
    } else {
      var t := FirstLargest(outs, size);
      if !Unshrinkable(outs[t], size) {
        var next := outs[t := Shrunk(outs[t], 1)];
        OnePass(outs, original, given, t);
        ShrinkCounts(outs, t);
        NoDropBeyond(next, original, given[t := given[t] + 1], size, budget);
        if Trimmed(next, size, budget) == next {
          assert TrimmedSomehow(outs, original) && LastDrop(outs, t, next, size, budget);
        }
      }
    }
  }

  /** Nothing is given up beyond need: what fits is left alone, and otherwise the list just before the
      last finding was dropped, itself a trimming of the original, still exceeded the budget. */
  lemma NoDropBeyondNeed(outs: seq<SpecialistOutput>, size: SpecialistOutput -> nat, budget: nat)
    ensures var r := Trimmed(outs, size, budget);
      r == outs || exists before, t :: TrimmedSomehow(before, outs) && LastDrop(before, t, r, size, budget)
  {
    NoDropBeyond(outs, outs, seq(|outs|, _ => 0), size, budget);
  }

  /** When giving up a finding always shrinks an output, the guard stops within budget or with a
      largest output that has no findings left. */
  lemma ExhaustedMeansBare(outs: seq<SpecialistOutput>, size: SpecialistOutput -> nat)
    requires Exhausted(outs, size)
    requires forall o: SpecialistOutput :: o.findings != [] ==> size(Shrunk(o, 1)) < size(o)
    ensures exists t: nat :: IsLargest(outs, size, t) && outs[t].findings == []
  {
    var t: nat :| IsLargest(outs, size, t) && Unshrinkable(outs[t], size);
  }
}
