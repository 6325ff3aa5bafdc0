/** From the specialists' answers to the findings of the review and its verdict: exactly what was
    reported is collected, credited to whoever reported it, and kept if it can block. */
module Hearing {
  import opened Util
  import opened Findings
  import opened Leaves
  import opened CallTree
  import opened Trim
  import opened CollectHandler
  import opened Ranking
  import opened Readiness
  import opened GateTheorems
  import Collect
  import CollectTheorems
  import Dedup
  import Coverage
  import Pipeline
  import PoolProofs
  import TreeAccount
  import VerdictTheorems

  /** Whom a unit's row speaks for. */
  function Speaker(t: Tree): string {
    if t.Served? && t.answer.id.Some? then t.answer.id.value else t.unit.leafId
  }

  /** A sub-call of this unit reported it. A unit served whole is heard only if it is completed by its own
      word or by saying nothing; the halves of a split unit are not asked, their row is completed. */
  ghost predicate Heard(t: Tree, n: Tree, r: Report) {
    && n in Terminals(t) && n.Served? && n.answer.findings.Some? && r in n.answer.findings.value
    && (n == t ==> n.answer.status in {None, Some(Completed)})
  }

  lemma {:induction false} InFlatten<T>(ss: seq<seq<T>>, x: T)
    ensures x in Flatten(ss) <==> exists i :: 0 <= i < |ss| && x in ss[i]
  {
    if ss == [] {
    } else {
      InFlatten(ss[1..], x);
      assert forall i :: 0 <= i < |ss[1..]| ==> ss[1..][i] == ss[i + 1];
      if i :| 0 <= i < |ss| && x in ss[i] && i > 0 {
        assert x in ss[1..][i - 1];
      }
    }
  }

  /** Exactly the reports heard are on a completed row, and the row goes under the unit's speaker. */
  lemma HeardIsSaid(t: Tree, retries: nat, r: Report)
    requires Valid(t, retries)
    ensures Output(t, retries).id == Speaker(t)
    ensures (Output(t, retries).status == Completed && r in Output(t, retries).findings) <==> exists n :: Heard(t, n, r)
  {
    TreeAccount.OutputAccounts(t, retries);
    TerminalsCoverUnit(t, retries);
    var reports := Map(ReportsOf, Terminals(t));
    InFlatten(reports, r);
    if i :| 0 <= i < |reports| && r in reports[i] && Output(t, retries).status == Completed {
      assert Heard(t, Terminals(t)[i], r);
    }
    if n :| Heard(t, n, r) {
      var i :| 0 <= i < |Terminals(t)| && Terminals(t)[i] == n;
      assert r in reports[i];
    }
  }

  /** Somebody the unit speaks for reported it. */
  ghost predicate HeardFrom(trees: seq<Tree>, id: string, r: Report) {
    exists u, n :: 0 <= u < |trees| && Heard(trees[u], n, r) && id == Speaker(trees[u])
  }

  ghost predicate SaidUnder(outputs: seq<SpecialistOutput>, id: string, r: Report) {
    exists o :: Said(outputs, o, r) && o.id == id
  }

  /** What the merged list says is what the answers said. */
  lemma OutputsSayWhatIsHeard(trees: seq<Tree>, retries: nat, id: string, r: Report)
    requires PoolProofs.AllValid(trees, retries)
    ensures SaidUnder(Pipeline.Outputs(trees, retries), id, r) <==> HeardFrom(trees, id, r)
  {
    var outputs := Pipeline.Outputs(trees, retries);
    if o :| Said(outputs, o, r) && o.id == id {
      var u :| 0 <= u < |outputs| && outputs[u] == o;
      HeardIsSaid(trees[u], retries, r);
      var n :| Heard(trees[u], n, r);
    }
    if u, n :| 0 <= u < |trees| && Heard(trees[u], n, r) && id == Speaker(trees[u]) {
      HeardIsSaid(trees[u], retries, r);
      assert Said(outputs, outputs[u], r);
    }
  }

  /** The size guard only takes away. */
  lemma TrimmedSaysNoMore(outputs: seq<SpecialistOutput>, size: SpecialistOutput -> nat, budget: nat, id: string,
                          r: Report)
    requires SaidUnder(Trimmed(outputs, size, budget), id, r)
    ensures SaidUnder(outputs, id, r)
  {
    var trimmed := Trimmed(outputs, size, budget);
    TrimmedWell(outputs, size, budget);
    var given :| TrimmedFrom(trimmed, outputs, given);
    var o :| Said(trimmed, o, r) && o.id == id;
    var i :| 0 <= i < |trimmed| && trimmed[i] == o;
    ShrunkKeepsSevere(outputs[i], given[i]);
    assert r in multiset(o.findings) && multiset(o.findings) <= multiset(outputs[i].findings);
    assert Said(outputs, outputs[i], r);
  }

  /** Nothing is invented, whatever the budget: every finding of the review was reported by somebody. */
  lemma FindingsWereHeard(trees: seq<Tree>, retries: nat, size: SpecialistOutput -> nat, budget: nat,
                          threshold: Option<real>, f: Record) returns (id: string, r: Report)
    requires PoolProofs.AllValid(trees, retries)
    requires f in Pipeline.FindingsOf(trees, retries, size, budget, threshold)
    ensures HeardFrom(trees, id, r) && f.report == r.(confidence := f.report.confidence)
  {
    var outputs := Pipeline.Outputs(trees, retries);
    CollectedWorded(Trimmed(outputs, size, budget), threshold.GetOr(0.75), f);
    var o;
    o, r :| Said(Trimmed(outputs, size, budget), o, r) && f.report == r.(confidence := f.report.confidence);
    id := o.id;
    TrimmedSaysNoMore(outputs, size, budget, id, r);
    OutputsSayWhatIsHeard(trees, retries, id, r);
  }

  lemma SaidOfIff(outputs: seq<SpecialistOutput>, file: string, id: string)
    ensures (file, id) in SaidOf(outputs) <==> exists r :: SaidUnder(outputs, id, r) && r.file == file
  {
    if (file, id) in SaidOf(outputs) {
      var o, r :| o in outputs && o.status == Completed && r in o.findings && (r.file, o.id) == (file, id);
      assert Said(outputs, o, r);
      assert SaidUnder(outputs, id, r);
    }
    if r :| SaidUnder(outputs, id, r) && r.file == file {
      var o :| Said(outputs, o, r) && o.id == id;
      assert (r.file, o.id) in SaidOf(outputs);
    }
  }

  /** Everyone is heard: when the rows fit the budget, every specialist is credited with exactly the files
      it reported on, and whoever reported something critical or important stands behind such a finding. */
  lemma EveryoneIsHeard(trees: seq<Tree>, retries: nat, size: SpecialistOutput -> nat, budget: nat,
                        threshold: Option<real>, file: string, id: string)
    requires PoolProofs.AllValid(trees, retries) && TotalSize(Pipeline.Outputs(trees, retries), size) <= budget
    ensures var findings := Pipeline.FindingsOf(trees, retries, size, budget, threshold);
      && ((forall who, r :: HeardFrom(trees, who, r) ==> ':' !in r.file) ==>
            ((file, id) in Credit(findings) <==> exists r :: HeardFrom(trees, id, r) && r.file == file))
      && (forall r :: HeardFrom(trees, id, r) && r.severity in {"critical", "important"} ==>
            id in BlockingLeaves(findings))
  {
    var outputs := Pipeline.Outputs(trees, retries);
    assert Trimmed(outputs, size, budget) == outputs;
    forall who, r ensures SaidUnder(outputs, who, r) <==> HeardFrom(trees, who, r) {
      OutputsSayWhatIsHeard(trees, retries, who, r);
    }
    if forall who, r :: HeardFrom(trees, who, r) ==> ':' !in r.file {
      forall o, r | Said(outputs, o, r) ensures ':' !in r.file {
        assert SaidUnder(outputs, o.id, r);
      }
      CreditOfSaid(outputs, threshold.GetOr(0.75));
      SaidOfIff(outputs, file, id);
    }
    forall r | HeardFrom(trees, id, r) && r.severity in {"critical", "important"}
      ensures id in SaidBlocking(outputs)
    {
      var o :| Said(outputs, o, r) && o.id == id;
    }
    StreamBlocking(outputs);
    CollectTheorems.CollectionKeepsBlocking(Dedup.Stream(outputs), threshold.GetOr(0.75));
  }

  /** From the answer to the verdict: if a picked leaf with a gate dimension or phrase reported something
      critical or important and its rows fit the budget, the review is NO-GO unless the ranker explicitly
      dropped a critical or important finding that leaf stood behind. */
  lemma BlockerDecides(trees: seq<Tree>, retries: nat, size: SpecialistOutput -> nat, budget: nat,
                       threshold: Option<real>, decisions: seq<Decision>, picked: seq<Leaf>,
                       rescues: seq<Coverage.Rescue>, changed: seq<string>, leaf: Leaf, r: Report)
    requires PoolProofs.AllValid(trees, retries) && TotalSize(Pipeline.Outputs(trees, retries), size) <= budget
    requires leaf in picked && (HasGateDimension(leaf) || SaysGatePhrase(leaf))
    requires HeardFrom(trees, leaf.id, r) && r.severity in {"critical", "important"}
    ensures
      || Pipeline.AnsweredVerdict(trees, retries, size, budget, threshold, decisions, picked, rescues, changed) == NoGo
      || DropExplains(Pipeline.FindingsOf(trees, retries, size, budget, threshold), decisions, leaf.id)
  {
    var findings := Pipeline.FindingsOf(trees, retries, size, budget, threshold);
    EveryoneIsHeard(trees, retries, size, budget, threshold, "", leaf.id);
    GatekeepersAre(leaf);
    VerdictTheorems.HeldOrDropped(findings, decisions, Threshold(threshold), picked, leaf);
    VerdictTheorems.GateHeldIff(Ranked(findings, decisions, Threshold(threshold)), picked);
  }
}
