/** What a verdict means, from the specialists' raw findings to the gates. */
module VerdictTheorems {
  import opened Util
  import opened Findings
  import opened Leaves
  import opened Ranking
  import opened Coverage
  import opened Readiness
  import opened Dedup
  import opened DedupTheorems
  import Collect
  import CollectTheorems

  ghost predicate CoverageViolated(findings: seq<Record>, picked: seq<Leaf>, rescues: seq<Rescue>,
                                   changed: seq<string>) {
    exists f :: f in changed && |Reviewers(findings, picked, rescues, f)| < 2
  }

  ghost function FinalVerdict(findings: seq<Record>, picked: seq<Leaf>, rescues: seq<Rescue>,
                              changed: seq<string>): Verdict {
    VerdictOf(findings, picked, CoverageViolated(findings, picked, rescues, changed))
  }

  /** Ranking, coverage and gates, one after the other, as a run goes through them. */
  method Conclude(collected: seq<Record>, decisions: seq<Decision>, threshold: Option<real>, picked: seq<Leaf>,
                  rescues: seq<Rescue>, changed: seq<string>)
      returns (findings: seq<Record>, rows: seq<Row>, verdict: Verdict)
    ensures findings == Ranked(collected, decisions, Threshold(threshold))
    ensures IsMatrix(rows, findings, picked, rescues, changed)
    ensures verdict == FinalVerdict(findings, picked, rescues, changed)
  {
    var counts;
    findings, counts := ApplyRankDecisions(collected, decisions, threshold);
    var gaps, violated;
    rows, gaps, violated := VerifyCoverage(findings, picked, rescues, changed);
    ViolatedIff(rows, findings, picked, rescues, changed);
    var gates;
    gates, verdict := SynthesizeReadiness(findings, picked, violated);
  }

  // ---- the meaning of GO -------------------------------------------------------------------

  /** A leaf that belongs to one of the eight gates. */
  ghost predicate AnswersToAGate(leaf: Leaf) {
    exists number :: 1 <= number <= GATE_COUNT && Gated(number, leaf)
  }

  /** A picked leaf that belongs to a gate stands behind a critical or important finding. */
  ghost predicate GateHeld(findings: seq<Record>, picked: seq<Leaf>) {
    exists leaf, r :: leaf in picked && AnswersToAGate(leaf) && r in findings && BlocksFor(r, leaf.id)
  }

  lemma GateHeldIff(findings: seq<Record>, picked: seq<Leaf>)
    ensures SomeGateBlocked(picked, BlockingLeaves(findings)) <==> GateHeld(findings, picked)
  {
    var blocking := BlockingLeaves(findings);
    if leaf, r :| leaf in picked && AnswersToAGate(leaf) && r in findings && BlocksFor(r, leaf.id) {
      var number :| 1 <= number <= GATE_COUNT && Gated(number, leaf);
      assert leaf.id in blocking;
      assert GateBlocked(number, picked, blocking);
    }
    if SomeGateBlocked(picked, blocking) {
      var number :| 1 <= number <= GATE_COUNT && GateBlocked(number, picked, blocking);
      var leaf :| leaf in picked && Gated(number, leaf) && leaf.id in blocking;
      assert AnswersToAGate(leaf);
      var r :| r in findings && leaf.id in r.flaggedBy && Blocking(r.report.severity);
    }
  }

  /** GO says exactly this: every changed file has two reviewers, and no picked leaf that belongs to
      a gate stands behind a surviving critical or important finding. */
  lemma GoMeans(findings: seq<Record>, picked: seq<Leaf>, rescues: seq<Rescue>, changed: seq<string>)
    ensures FinalVerdict(findings, picked, rescues, changed) == Go <==>
      && (forall f :: f in changed ==> |Reviewers(findings, picked, rescues, f)| >= 2)
      && (forall leaf, r :: leaf in picked && AnswersToAGate(leaf) && r in findings ==> !BlocksFor(r, leaf.id))
  {
    GateHeldIff(findings, picked);
  }

  // ---- collection does not soften the verdict ----------------------------------------------

  /** The specialists' findings as they came, one record each. */
  function Unmerged(stream: seq<Stamped>): (rs: seq<Record>)
    ensures |rs| == |stream|
    ensures forall i :: 0 <= i < |rs| ==>
      rs[i] == Collect.RecordOf(Entry(stream[i].report, {stream[i].id}, stream[i].id))
  {
    seq(|stream|, i requires 0 <= i < |stream| =>
      Collect.RecordOf(Entry(stream[i].report, {stream[i].id}, stream[i].id)))
  }

  lemma UnmergedFacts(stream: seq<Stamped>)
    ensures Credit(Unmerged(stream)) == RawCredit(stream)
    ensures BlockingLeaves(Unmerged(stream)) == RawBlocking(stream)
  {
    var rs := Unmerged(stream);
    forall p | p in Credit(rs) ensures p in RawCredit(stream) {
      var r :| r in rs && p.1 in r.flaggedBy && r.report.file == p.0;
      var i :| 0 <= i < |rs| && rs[i] == r;
      assert stream[i] in stream;
    }
    forall leaf | leaf in BlockingLeaves(rs) ensures leaf in RawBlocking(stream) {
      var r :| r in rs && leaf in r.flaggedBy && Blocking(r.report.severity);
      var i :| 0 <= i < |rs| && rs[i] == r;
      assert stream[i] in stream;
    }
    forall s | s in stream
      ensures (s.report.file, s.id) in Credit(rs)
      ensures Blocking(s.report.severity) ==> s.id in BlockingLeaves(rs)
    {
      var i :| 0 <= i < |stream| && stream[i] == s;
      assert rs[i] in rs && s.id in rs[i].flaggedBy;
    }
  }

  lemma CreditDecidesReviewers(a: seq<Record>, b: seq<Record>, picked: seq<Leaf>, rescues: seq<Rescue>, file: string)
    requires Credit(a) == Credit(b)
    ensures Reviewers(a, picked, rescues, file) == Reviewers(b, picked, rescues, file)
  {
    forall leaf ensures leaf in FromFindings(a, file) <==> leaf in FromFindings(b, file) {
      assert leaf in FromFindings(a, file) <==> (file, leaf) in Credit(a);
      assert leaf in FromFindings(b, file) <==> (file, leaf) in Credit(b);
    }
  }

  /** While keys tell files apart, deduplicating and merging leave everyone's coverage credit as it was. */
  lemma CollectionKeepsCoverage(stream: seq<Stamped>, threshold: real, picked: seq<Leaf>,
                                                   rescues: seq<Rescue>, file: string)
    requires KeysSeparateFiles(stream)
    ensures Reviewers(Collect.Collected(stream, threshold), picked, rescues, file)
         == Reviewers(Unmerged(stream), picked, rescues, file)
  {
    CollectTheorems.CollectionKeepsCredit(stream, threshold);
    UnmergedFacts(stream);
    CreditDecidesReviewers(Collect.Collected(stream, threshold), Unmerged(stream), picked, rescues, file);
  }

  /** The gates alone need no condition on the keys. */
  lemma CollectionKeepsGateBlocks(stream: seq<Stamped>, threshold: real, picked: seq<Leaf>)
    requires SomeGateBlocked(picked, BlockingLeaves(Unmerged(stream)))
    ensures SomeGateBlocked(picked, BlockingLeaves(Collect.Collected(stream, threshold)))
  {
    UnmergedFacts(stream);
    CollectTheorems.CollectionKeepsBlocking(stream, threshold);
    var raw, collected := BlockingLeaves(Unmerged(stream)), BlockingLeaves(Collect.Collected(stream, threshold));
    var number :| 1 <= number <= GATE_COUNT && GateBlocked(number, picked, raw);
    var leaf :| leaf in picked && Gated(number, leaf) && leaf.id in raw;
    assert GateBlocked(number, picked, collected);
  }

  /** NO-GO on the raw findings means NO-GO on the collected ones. */
  ghost predicate NoGoKept(stream: seq<Stamped>, threshold: real, picked: seq<Leaf>, rescues: seq<Rescue>,
                           changed: seq<string>) {
    FinalVerdict(Unmerged(stream), picked, rescues, changed) == NoGo ==>
      FinalVerdict(Collect.Collected(stream, threshold), picked, rescues, changed) == NoGo
  }

  /** While keys tell files apart, a review that is NO-GO on the raw findings stays NO-GO. */
  lemma RawNoGoStaysNoGo(stream: seq<Stamped>, threshold: real, picked: seq<Leaf>,
                                            rescues: seq<Rescue>, changed: seq<string>)
    requires KeysSeparateFiles(stream)
    ensures NoGoKept(stream, threshold, picked, rescues, changed)
  {
    var raw, collected := Unmerged(stream), Collect.Collected(stream, threshold);
    if CoverageViolated(raw, picked, rescues, changed) {
      var f :| f in changed && |Reviewers(raw, picked, rescues, f)| < 2;
      CollectionKeepsCoverage(stream, threshold, picked, rescues, f);
      assert CoverageViolated(collected, picked, rescues, changed);
    } else if SomeGateBlocked(picked, BlockingLeaves(raw)) {
      CollectionKeepsGateBlocks(stream, threshold, picked);
    }
  }

  /** With nobody picked and nothing rescued, one changed file stands or falls by its credit. */
  lemma LoneFile(findings: seq<Record>, file: string)
    ensures FinalVerdict(findings, [], [], [file]) == Go <==> |FromFindings(findings, file)| >= 2
  {
    assert Reviewers(findings, [], [], file) == FromFindings(findings, file);
    assert file in [file];
  }

  lemma TwoMembers<T>(s: set<T>, x: T, y: T)
    requires x != y && x in s && y in s
    ensures |s| >= 2
  {
    assert s == {x} + {y} + (s - {x} - {y});
  }

  lemma OneMember<T>(s: set<T>, x: T)
    requires forall y :: y in s ==> y == x
    ensures |s| <= 1
  {
    assert s == {} || s == {x};
  }

  lemma TwoCreditedReviewers(findings: seq<Record>, file: string, leaf: string, other: string)
    requires leaf != other && (file, leaf) in Credit(findings) && (file, other) in Credit(findings)
    ensures |FromFindings(findings, file)| >= 2
  {
    TwoMembers(FromFindings(findings, file), leaf, other);
  }

  lemma OneCreditedReviewer(findings: seq<Record>, file: string, leaf: string)
    requires forall other :: (file, other) in Credit(findings) ==> other == leaf
    ensures |FromFindings(findings, file)| <= 1
  {
    forall other | other in FromFindings(findings, file) ensures other == leaf {
      assert (file, other) in Credit(findings);
    }
    OneMember(FromFindings(findings, file), leaf);
  }

  lemma OnlyTwoIds(reports: seq<Report>, j: nat, file: string, leaf: string)
    requires (file, leaf) in RawCredit(Assigned(AllButOne(|reports|, j), reports))
    ensures leaf == "a" || leaf == "b"
  {
    var stream := Assigned(AllButOne(|reports|, j), reports);
    var s :| s in stream && s.report.file == file && s.id == leaf;
    var i :| 0 <= i < |stream| && stream[i] == s;
  }

  lemma CollisionHidesNoGo(reports: seq<Report>, threshold: real) returns (j: nat, file: string)
    requires !FilesSeparated(reports)
    ensures j < |reports| && !NoGoKept(Assigned(AllButOne(|reports|, j), reports), threshold, [], [], [file])
  {
    j, file := CollisionMovesCredit(reports);
    var stream := Assigned(AllButOne(|reports|, j), reports);
    var raw, collected := Unmerged(stream), Collect.Collected(stream, threshold);
    CollectTheorems.CollectionFacts(stream, threshold);
    TwoCreditedReviewers(collected, file, "a", "b");
    LoneFile(collected, file);
    UnmergedFacts(stream);
    forall leaf | (file, leaf) in Credit(raw) ensures leaf == "a" {
      OnlyTwoIds(reports, j, file, leaf);
    }
    OneCreditedReviewer(raw, file, "a");
    LoneFile(raw, file);
  }

  /** Collection leaves the reviewers of the file as they were. */
  ghost predicate CoverageKept(stream: seq<Stamped>, threshold: real, picked: seq<Leaf>, rescues: seq<Rescue>,
                               file: string) {
    Reviewers(Collect.Collected(stream, threshold), picked, rescues, file)
    == Reviewers(Unmerged(stream), picked, rescues, file)
  }

  lemma CollisionAddsReviewer(reports: seq<Report>, threshold: real) returns (j: nat, file: string)
    requires !FilesSeparated(reports)
    ensures j < |reports| && !CoverageKept(Assigned(AllButOne(|reports|, j), reports), threshold, [], [], file)
  {
    j, file := CollisionMovesCredit(reports);
    var stream := Assigned(AllButOne(|reports|, j), reports);
    var raw, collected := Unmerged(stream), Collect.Collected(stream, threshold);
    CollectTheorems.CollectionFacts(stream, threshold);
    UnmergedFacts(stream);
    assert (file, "b") in Credit(collected) && (file, "b") !in Credit(raw);
    assert "b" in FromFindings(collected, file) && "b" !in FromFindings(raw, file);
  }

  /** Everyone's coverage credit is left as it was, whoever reported what, exactly when no two files
      share a key. */
  lemma CoverageKeptIff(reports: seq<Report>, threshold: real)
    ensures FilesSeparated(reports) <==>
      forall ids: seq<string>, picked: seq<Leaf>, rescues: seq<Rescue>, file: string ::
        |ids| == |reports| ==> CoverageKept(Assigned(ids, reports), threshold, picked, rescues, file)
  {
    if FilesSeparated(reports) {
      forall ids: seq<string>, picked: seq<Leaf>, rescues: seq<Rescue>, file: string | |ids| == |reports|
        ensures CoverageKept(Assigned(ids, reports), threshold, picked, rescues, file)
      {
        SeparatedWhoever(ids, reports);
        CollectionKeepsCoverage(Assigned(ids, reports), threshold, picked, rescues, file);
      }
    } else {
      var j, file := CollisionAddsReviewer(reports, threshold);
      assert |AllButOne(|reports|, j)| == |reports|;
    }
  }

  /** Collection never turns a NO-GO into a GO, whoever reported what and whatever was picked, rescued
      and changed, exactly when no two files share a key. */
  lemma NoGoKeptIff(reports: seq<Report>, threshold: real)
    ensures FilesSeparated(reports) <==>
      forall ids: seq<string>, picked: seq<Leaf>, rescues: seq<Rescue>, changed: seq<string> ::
        |ids| == |reports| ==> NoGoKept(Assigned(ids, reports), threshold, picked, rescues, changed)
  {
    if FilesSeparated(reports) {
      forall ids: seq<string>, picked: seq<Leaf>, rescues: seq<Rescue>, changed: seq<string> | |ids| == |reports|
        ensures NoGoKept(Assigned(ids, reports), threshold, picked, rescues, changed)
      {
        SeparatedWhoever(ids, reports);
        RawNoGoStaysNoGo(Assigned(ids, reports), threshold, picked, rescues, changed);
      }
    } else {
      var j, file := CollisionHidesNoGo(reports, threshold);
      assert |AllButOne(|reports|, j)| == |reports|;
    }
  }

  lemma HeldOrDropped(collected: seq<Record>, decisions: seq<Decision>, rankThreshold: real,
                                         picked: seq<Leaf>, leaf: Leaf)
    requires leaf in picked && AnswersToAGate(leaf) && leaf.id in BlockingLeaves(collected)
    ensures GateHeld(Ranked(collected, decisions, rankThreshold), picked) || DropExplains(collected, decisions, leaf.id)
  {
    var ranked := Ranked(collected, decisions, rankThreshold);
    if leaf.id in BlockingLeaves(ranked) {
      var r :| r in ranked && leaf.id in r.flaggedBy && Blocking(r.report.severity);
      assert BlocksFor(r, leaf.id);
    } else {
      RankingOnlyRemoves(collected, decisions, rankThreshold);
      assert leaf.id in BlockingLeaves(collected) - BlockingLeaves(ranked);
    }
  }

  /** If a picked leaf that belongs to a gate reported something critical or important, the ranked
      findings still hold a gate, unless the ranker explicitly dropped a critical or important finding
      that leaf was behind. */
  lemma GateHeldUnlessDropped(stream: seq<Stamped>, threshold: real, decisions: seq<Decision>,
                                                 rankThreshold: real, picked: seq<Leaf>, s: Stamped, leaf: Leaf)
    requires s in stream && Blocking(s.report.severity)
    requires leaf in picked && leaf.id == s.id && AnswersToAGate(leaf)
    ensures var collected := Collect.Collected(stream, threshold);
      GateHeld(Ranked(collected, decisions, rankThreshold), picked) || DropExplains(collected, decisions, leaf.id)
  {
    CollectTheorems.CollectionKeepsBlocking(stream, threshold);
    assert leaf.id in RawBlocking(stream);
    HeldOrDropped(Collect.Collected(stream, threshold), decisions, rankThreshold, picked, leaf);
  }

  /** So if the verdict is GO all the same, such a finding was explicitly dropped. */
  lemma GoNeedsAnExplicitDrop(stream: seq<Stamped>, threshold: real, decisions: seq<Decision>,
                                                 rankThreshold: real, picked: seq<Leaf>, rescues: seq<Rescue>,
                                                 changed: seq<string>, s: Stamped, leaf: Leaf)
    requires s in stream && Blocking(s.report.severity)
    requires leaf in picked && leaf.id == s.id && AnswersToAGate(leaf)
    ensures var collected := Collect.Collected(stream, threshold);
      FinalVerdict(Ranked(collected, decisions, rankThreshold), picked, rescues, changed) == Go ==>
        DropExplains(collected, decisions, leaf.id)
  {
    GateHeldUnlessDropped(stream, threshold, decisions, rankThreshold, picked, s, leaf);
    GateHeldIff(Ranked(Collect.Collected(stream, threshold), decisions, rankThreshold), picked);
  }
}
