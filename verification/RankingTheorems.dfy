/** What ranking does to each finding, in terms of the ranker's answer. */
module RankingTheorems {
  import opened Util
  import opened Findings
  import opened Ranking
  import Text

  /** The ranker's last word on finding `i` is the decision at `k`. */
  ghost predicate LastWord(decisions: seq<Decision>, i: nat, k: nat) {
    k < |decisions| && decisions[k].index == Some(i)
    && forall l :: k < l < |decisions| ==> decisions[l].index != Some(i)
  }

  ghost predicate NoWord(decisions: seq<Decision>, i: nat) {
    forall l :: 0 <= l < |decisions| ==> decisions[l].index != Some(i)
  }

  lemma {:induction false} LastForIs(decisions: seq<Decision>, i: nat)
    ensures LastFor(decisions, i).None? <==> NoWord(decisions, i)
    ensures forall k: nat :: LastWord(decisions, i, k) ==> LastFor(decisions, i) == Some(decisions[k])
    ensures LastFor(decisions, i).Some? ==> exists k: nat :: LastWord(decisions, i, k)
  {
    var n := |decisions| - 1;
    if n < 0 {
      assert NoWord(decisions, i);
    } else if decisions[n].index == Some(i) {
      assert LastWord(decisions, i, n);
    } else {
      var init := decisions[..n];
      LastForIs(init, i);
      forall k: nat | LastWord(decisions, i, k) ensures LastWord(init, i, k) {
      }
      if LastFor(init, i).Some? {
        var k: nat :| LastWord(init, i, k);
        assert LastWord(decisions, i, k);
      }
      assert NoWord(init, i) ==> NoWord(decisions, i);
    }
  }

  /** How sure a finding is of being a defect when the ranker does not say: by severity, in any case. */
  predicate Presumed(severity: string, confidence: real) {
    var s := Text.Lower(severity);
    && (s == "critical" ==> confidence == 0.9)
    && (s == "important" ==> confidence == 0.7)
    && (s == "minor" ==> confidence == 0.25)
    && (s !in {"critical", "important", "minor"} ==> confidence == 0.5)
  }

  /** The threshold in force: the one given, unless none or zero is. */
  predicate InForce(given: Option<real>, threshold: real) {
    if given in {None, Some(0.0)} then threshold == 0.75 else given == Some(threshold)
  }

  /** `after` is `before` as the ranker's last word leaves it: its own confidence and flag where the word
      gives them, else the presumed confidence, and the flag by comparing with the threshold. */
  ghost predicate ScoredBy(before: Record, after: Record, word: Option<Decision>, given: Option<real>) {
    && after.defectConfidence.Some?
    && (if word.Some? && word.value.confidence.Some? then after.defectConfidence == word.value.confidence
        else Presumed(before.report.severity, after.defectConfidence.value))
    && (if word.Some? && word.value.primary.Some? then Some(after.primary) == word.value.primary
        else forall t :: InForce(given, t) ==> (after.primary <==> after.defectConfidence.value >= t))
    && after == before.(defectConfidence := after.defectConfidence, primary := after.primary)
  }

  /** A finding is left out exactly when the ranker's last word on it says drop. */
  lemma DroppedIff(decisions: seq<Decision>, i: nat)
    ensures Dropped(decisions, i) <==> exists k: nat :: LastWord(decisions, i, k) && decisions[k].drop
  {
    LastForIs(decisions, i);
  }

  lemma ScoredTells(r: Record, word: Option<Decision>, given: Option<real>)
    ensures ScoredBy(r, Scored(r, word, Threshold(given)), word, given)
  {
  }

  /** A finding the ranker's last word does not drop is still there, scored by that word. */
  lemma FindingRanked(findings: seq<Record>, decisions: seq<Decision>, given: Option<real>, i: nat) returns (j: nat)
    requires i < |findings| && forall k: nat :: LastWord(decisions, i, k) ==> !decisions[k].drop
    ensures j < |Ranked(findings, decisions, Threshold(given))| && Kept(decisions, |findings|)[j] == i
    ensures ScoredBy(findings[i], Ranked(findings, decisions, Threshold(given))[j], LastFor(decisions, i), given)
  {
    DroppedIff(decisions, i);
    var ks := Kept(decisions, |findings|);
    assert i in ks;
    j :| 0 <= j < |ks| && ks[j] == i;
    ScoredTells(findings[i], LastFor(decisions, i), given);
  }

  /** The counts that go with the ranked list: findings per severity, in any case, and no other key. */
  lemma CountsTell(counts: map<string, nat>, rs: seq<Record>)
    requires CountsLowered(counts, rs)
    ensures counts.Keys == {"critical", "important", "minor"}
    ensures forall s :: s in counts ==> counts[s] == |Places((r: Record) => Text.Lower(r.report.severity) == s, rs)|
  {
    forall s | s in counts
      ensures counts[s] == |Places((r: Record) => Text.Lower(r.report.severity) == s, rs)|
    {
      CountIsSize((r: Record) => Text.Lower(r.report.severity) == s, rs);
    }
  }
}
