/** Who counts as a reviewer of a file, and which files fall short of two. */
module CoverageTheorems {
  import opened Util
  import opened Findings
  import opened Leaves
  import opened Coverage
  import opened Readiness
  import opened VerdictTheorems
  import opened GateTheorems
  import CollectHandler
  import Glob

  ghost predicate HasGlobFor(leaf: Leaf, file: string) {
    leaf.wikiGlobs.Some? && exists g :: g in leaf.wikiGlobs.value && Glob.Minimatch(file, g)
  }

  /** A picked leaf reviews a file by its scope: everywhere without an activation block, else where one of
      its globs matches. A leaf without an id reviews nothing. */
  ghost predicate ReviewsByScope(picked: seq<Leaf>, file: string, id: string) {
    exists leaf :: leaf in picked && leaf.id == id && id != "" && (leaf.wikiGlobs == None || HasGlobFor(leaf, file))
  }

  ghost predicate ReportedOn(findings: seq<Record>, file: string, id: string) {
    exists r :: r in findings && r.report.file == file && id in r.flaggedBy
  }

  /** The reviewers of a file are those who reported on it, those whose scope it is in, and those a rescue
      names for it. */
  lemma ReviewersAre(findings: seq<Record>, picked: seq<Leaf>, rescues: seq<Rescue>, file: string, id: string)
    ensures id in Reviewers(findings, picked, rescues, file) <==>
      ReportedOn(findings, file, id) || ReviewsByScope(picked, file, id) || Rescue(file, id) in rescues
  {
    if ReviewsByScope(picked, file, id) {
      var leaf :| leaf in picked && leaf.id == id && id != "" && (leaf.wikiGlobs == None || HasGlobFor(leaf, file));
      assert InScope(leaf, file);
    }
    if Rescue(file, id) in rescues {
      assert Rescue(file, id).leaf in FromRescues(rescues, file);
    }
  }

  /** The reported gaps are exactly the changed files with fewer than two reviewers. */
  lemma GapsAre(rows: seq<Row>, findings: seq<Record>, picked: seq<Leaf>, rescues: seq<Rescue>,
                changed: seq<string>, file: string)
    requires IsMatrix(rows, findings, picked, rescues, changed)
    ensures file in Gaps(rows) <==> file in changed && |Reviewers(findings, picked, rescues, file)| < 2
  {
    if file in Gaps(rows) {
      var i := GapHasRow(rows, file);
    }
    if file in changed && |Reviewers(findings, picked, rescues, file)| < 2 {
      var i :| 0 <= i < |rows| && rows[i].file == file;
      GapAt(rows, i);
    }
  }

  ghost predicate Reviews(findings: seq<Record>, picked: seq<Leaf>, rescues: seq<Rescue>, file: string, id: string) {
    ReportedOn(findings, file, id) || ReviewsByScope(picked, file, id) || Rescue(file, id) in rescues
  }

  /** Two different specialists reviewed the file. */
  ghost predicate TwoReview(findings: seq<Record>, picked: seq<Leaf>, rescues: seq<Rescue>, file: string) {
    exists a, b :: a != b && Reviews(findings, picked, rescues, file, a) && Reviews(findings, picked, rescues, file, b)
  }

  lemma TwoReviewIff(findings: seq<Record>, picked: seq<Leaf>, rescues: seq<Rescue>, file: string)
    ensures TwoReview(findings, picked, rescues, file) <==> |Reviewers(findings, picked, rescues, file)| >= 2
  {
    var names := Reviewers(findings, picked, rescues, file);
    forall id ensures id in names <==> Reviews(findings, picked, rescues, file, id) {
      ReviewersAre(findings, picked, rescues, file, id);
    }
    CollectHandler.TwoNamesIff(names);
    if CollectHandler.TwoNames(names) {
      var a, b :| a in names && b in names && a != b;
    }
  }

  /** The final verdict in full: GO exactly when two different specialists reviewed every changed file and
      no picked leaf with a gate dimension or phrase stands behind a critical or important finding; and
      NO-GO otherwise. */
  lemma VerdictInFull(findings: seq<Record>, picked: seq<Leaf>, rescues: seq<Rescue>, changed: seq<string>)
    ensures FinalVerdict(findings, picked, rescues, changed) ==
      if (forall f :: f in changed ==> TwoReview(findings, picked, rescues, f)) && !GateBroken(findings, picked)
      then Go else NoGo
  {
    forall f | f in changed
      ensures TwoReview(findings, picked, rescues, f) <==> |Reviewers(findings, picked, rescues, f)| >= 2
    {
      TwoReviewIff(findings, picked, rescues, f);
    }
    VerdictIff(findings, picked, CoverageViolated(findings, picked, rescues, changed));
  }
}
