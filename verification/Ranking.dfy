/** Applying the ranker's per-index decisions to the collected findings. */
module Ranking {
  import opened Util
  import opened Findings
  import Text

  /** One entry of the ranker's answer. The index is absent when it is missing or no integer. */
  datatype Decision = Decision(index: Option<int>, drop: bool, confidence: Option<real>, primary: Option<bool>)

  /** The decision that counts for finding `i`: the last one that names it. */
  function LastFor(decisions: seq<Decision>, i: int): Option<Decision> {
    var n := |decisions| - 1;
    if n < 0 then None
    else if decisions[n].index == Some(i) then Some(decisions[n])
    else LastFor(decisions[..n], i)
  }

  predicate Dropped(decisions: seq<Decision>, i: int) {
    var d := LastFor(decisions, i);
    d.Some? && d.value.drop
  }

  function DefaultConfidence(severity: string): real {
    var s := Text.Lower(severity);
    if s == "critical" then 0.9 else if s == "important" then 0.7 else if s == "minor" then 0.25 else 0.5
  }

  /** An absent or zero threshold means the default. */
  function Threshold(given: Option<real>): real {
    if given.None? || given.value == 0.0 then 0.75 else given.value
  }

  function Scored(r: Record, d: Option<Decision>, threshold: real): Record {
    var conf := if d.Some? then d.value.confidence.GetOr(DefaultConfidence(r.report.severity))
                else DefaultConfidence(r.report.severity);
    var primary := if d.Some? then d.value.primary.GetOr(conf >= threshold) else conf >= threshold;
    r.(defectConfidence := Some(conf), primary := primary)
  }

  /** The indices that survive, ascending. */
  function Kept(decisions: seq<Decision>, n: nat): (ks: seq<nat>)
    ensures forall i: nat :: i in ks <==> i < n && !Dropped(decisions, i)
    ensures forall a, b :: 0 <= a < b < |ks| ==> ks[a] < ks[b]
    ensures forall a :: 0 <= a < |ks| ==> ks[a] < n
  {
    if n == 0 then []
    else if Dropped(decisions, n - 1) then Kept(decisions, n - 1)
    else Kept(decisions, n - 1) + [n - 1]
  }

  ghost function Ranked(findings: seq<Record>, decisions: seq<Decision>, threshold: real): (out: seq<Record>)
    ensures |out| == |Kept(decisions, |findings|)|
    ensures forall j :: 0 <= j < |out| ==>
      var i := Kept(decisions, |findings|)[j]; out[j] == Scored(findings[i], LastFor(decisions, i), threshold)
  {
    var ks := Kept(decisions, |findings|);
    seq(|ks|, j requires 0 <= j < |ks| => Scored(findings[ks[j]], LastFor(decisions, ks[j]), threshold))
  }

  method IndexDecisions(decisions: seq<Decision>) returns (byI: map<int, Decision>)
    ensures forall i :: LastFor(decisions, i) == if i in byI then Some(byI[i]) else None
  {
    byI := map[];
    for k := 0 to |decisions|
      invariant forall i :: LastFor(decisions[..k], i) == if i in byI then Some(byI[i]) else None
    {
      assert decisions[..k + 1][..k] == decisions[..k];
      var d := decisions[k];
      if d.index.Some? {
        byI := byI[d.index.value := d];
      }
    }
    assert decisions[..|decisions|] == decisions;
  }

  ghost predicate IsRankedUpTo(out: seq<Record>, findings: seq<Record>, decisions: seq<Decision>, threshold: real,
                               n: nat) {
    var ks := Kept(decisions, n);
    && n <= |findings| && |out| == |ks|
    && forall j :: 0 <= j < |out| ==> out[j] == Scored(findings[ks[j]], LastFor(decisions, ks[j]), threshold)
  }

  lemma RankedStep(out: seq<Record>, findings: seq<Record>, decisions: seq<Decision>, threshold: real, n: nat)
    requires IsRankedUpTo(out, findings, decisions, threshold, n) && n < |findings|
    ensures if Dropped(decisions, n) then IsRankedUpTo(out, findings, decisions, threshold, n + 1)
            else
              var scored := Scored(findings[n], LastFor(decisions, n), threshold);
              IsRankedUpTo(out + [scored], findings, decisions, threshold, n + 1)
  {
  }

  /** How many findings there are of each severity, in whatever case it was written. */
  ghost predicate CountsLowered(counts: map<string, nat>, rs: seq<Record>) {
    && counts.Keys == SEVERITIES
    && forall s :: s in SEVERITIES ==> counts[s] == CountWhere((r: Record) => Text.Lower(r.report.severity) == s, rs)
  }

  function Counted(counts: map<string, nat>, r: Record): map<string, nat> {
    var s := Text.Lower(r.report.severity);
    if s in counts then counts[s := counts[s] + 1] else counts
  }

  lemma CountedStep(counts: map<string, nat>, rs: seq<Record>, r: Record)
    requires CountsLowered(counts, rs)
    ensures CountsLowered(Counted(counts, r), rs + [r])
  {
    forall s | s in SEVERITIES
      ensures Counted(counts, r)[s] == CountWhere((r: Record) => Text.Lower(r.report.severity) == s, rs + [r])
    {
      CountSnoc((r: Record) => Text.Lower(r.report.severity) == s, rs, r);
    }
  }

  method Score(r: Record, d: Option<Decision>, threshold: real) returns (scored: Record)
    ensures scored == Scored(r, d, threshold)
  {
    var conf := if d.Some? && d.value.confidence.Some? then d.value.confidence.value
                else DefaultConfidence(r.report.severity);
    var primary := if d.Some? && d.value.primary.Some? then d.value.primary.value else conf >= threshold;
    scored := r.(defectConfidence := Some(conf), primary := primary);
  }

  ghost predicate RankedAndCounted(out: seq<Record>, counts: map<string, nat>, findings: seq<Record>,
                                   decisions: seq<Decision>, threshold: real, n: nat) {
    IsRankedUpTo(out, findings, decisions, threshold, n) && CountsLowered(counts, out)
  }

  lemma KeptStep(out: seq<Record>, counts: map<string, nat>, findings: seq<Record>, decisions: seq<Decision>,
                 threshold: real, n: nat)
    requires RankedAndCounted(out, counts, findings, decisions, threshold, n) && n < |findings|
    ensures if Dropped(decisions, n) then RankedAndCounted(out, counts, findings, decisions, threshold, n + 1)
            else
              var scored := Scored(findings[n], LastFor(decisions, n), threshold);
              RankedAndCounted(out + [scored], Counted(counts, scored), findings, decisions, threshold, n + 1)
  {
    RankedStep(out, findings, decisions, threshold, n);
    CountedStep(counts, out, Scored(findings[n], LastFor(decisions, n), threshold));
  }

  method ApplyRankDecisions(findings: seq<Record>, decisions: seq<Decision>, primaryThreshold: Option<real>)
      returns (out: seq<Record>, counts: map<string, nat>)
    ensures out == Ranked(findings, decisions, Threshold(primaryThreshold))
    ensures CountsLowered(counts, out)
  {
    var threshold := Threshold(primaryThreshold);
    var byI := IndexDecisions(decisions);
    out, counts := [], map["critical" := 0, "important" := 0, "minor" := 0];
    for i := 0 to |findings|
      invariant RankedAndCounted(out, counts, findings, decisions, threshold, i)
    {
      var d := if i in byI then Some(byI[i]) else None;
      assert d == LastFor(decisions, i);
      KeptStep(out, counts, findings, decisions, threshold, i);
      if !(d.Some? && d.value.drop) {
        var scored := Score(findings[i], d, threshold);
        out, counts := out + [scored], Counted(counts, scored);
      }
    }
  }

  /** Everything but the two scores is as it was. */
  predicate OnlyRescored(before: Record, after: Record) {
    after == before.(defectConfidence := after.defectConfidence, primary := after.primary)
  }

  /** A finding leaves only through an explicit drop; the others keep their order and everything but
      their scores. */
  lemma SurvivorsUntouched(findings: seq<Record>, decisions: seq<Decision>, threshold: real)
    ensures var out, ks := Ranked(findings, decisions, threshold), Kept(decisions, |findings|);
      && |out| == |ks|
      && (forall j :: 0 <= j < |out| ==> OnlyRescored(findings[ks[j]], out[j]))
      && (forall i: nat :: i < |findings| ==> (i !in ks <==> Dropped(decisions, i)))
  {
  }

  lemma {:induction false} Unnamed(decisions: seq<Decision>, i: int)
    requires forall d :: d in decisions ==> d.index != Some(i)
    ensures LastFor(decisions, i) == None
  {
    if decisions == [] {
    } else {
      Unnamed(decisions[..|decisions| - 1], i);
    }
  }

  /** An answer that names no finding loses none. */
  lemma PartialAnswerLosesNothing(findings: seq<Record>, decisions: seq<Decision>, threshold: real, i: nat)
    requires i < |findings| && forall d :: d in decisions ==> d.index != Some(i)
    ensures var out := Ranked(findings, decisions, threshold);
      exists j :: 0 <= j < |out| && OnlyRescored(findings[i], out[j])
  {
    Unnamed(decisions, i);
    var ks := Kept(decisions, |findings|);
    assert i in ks;
    var j :| 0 <= j < |ks| && ks[j] == i;
    assert OnlyRescored(findings[i], Ranked(findings, decisions, threshold)[j]);
  }

  predicate BlocksFor(r: Record, leaf: string) {
    leaf in r.flaggedBy && Blocking(r.report.severity)
  }

  /** Some blocking finding of the leaf was explicitly dropped. */
  ghost predicate DropExplains(findings: seq<Record>, decisions: seq<Decision>, leaf: string) {
    exists i :: 0 <= i < |findings| && Dropped(decisions, i) && BlocksFor(findings[i], leaf)
  }

  lemma KeptStillBlocks(findings: seq<Record>, decisions: seq<Decision>, threshold: real, i: nat, leaf: string)
    requires i < |findings| && BlocksFor(findings[i], leaf)
    ensures Dropped(decisions, i) || leaf in BlockingLeaves(Ranked(findings, decisions, threshold))
  {
    if !Dropped(decisions, i) {
      var out, ks := Ranked(findings, decisions, threshold), Kept(decisions, |findings|);
      assert i in ks;
      var j :| 0 <= j < |ks| && ks[j] == i;
      assert out[j] in out;
    }
  }

  /** Ranking never adds credit or blocking leaves, and what it removes was explicitly dropped. */
  lemma RankingOnlyRemoves(findings: seq<Record>, decisions: seq<Decision>, threshold: real)
    ensures Credit(Ranked(findings, decisions, threshold)) <= Credit(findings)
    ensures BlockingLeaves(Ranked(findings, decisions, threshold)) <= BlockingLeaves(findings)
    ensures forall leaf :: leaf in BlockingLeaves(findings) - BlockingLeaves(Ranked(findings, decisions, threshold)) ==>
      DropExplains(findings, decisions, leaf)
  {
    var out, ks := Ranked(findings, decisions, threshold), Kept(decisions, |findings|);
    forall r | r in out ensures exists i :: 0 <= i < |findings| && OnlyRescored(findings[i], r) {
      var j :| 0 <= j < |out| && out[j] == r;
      assert OnlyRescored(findings[ks[j]], r);
    }
    forall leaf | leaf in BlockingLeaves(findings) && leaf !in BlockingLeaves(out)
      ensures DropExplains(findings, decisions, leaf)
    {
      var r :| r in findings && leaf in r.flaggedBy && Blocking(r.report.severity);
      var i: nat :| i < |findings| && findings[i] == r;
      KeptStillBlocks(findings, decisions, threshold, i, leaf);
    }
  }
}
