/** What specialists report and what the pipeline records about it. */
module Findings {
  import opened Util

  /** One finding as a specialist wrote it. `details` stands for the fields nobody interprets. */
  datatype Report = Report(severity: string, file: string, line: Option<int>, title: string,
                           description: string, confidence: Option<real>, details: string)

  /** A finding on its way to the verdict. `flaggedBy` is the sorted list of leaf ids, hence a set. */
  datatype Record = Record(report: Report, flaggedBy: set<string>, winner: string,
                           mergedCount: Option<nat>, corroboration: nat, primary: bool,
                           defectConfidence: Option<real>)

  datatype Status = Completed | Failed | Skipped

  /** Token counts and cost figures stamped on one dispatch; a key that is absent stays absent. */
  datatype TokenMeter = TokensIn | TokensOut
  datatype CostMeter = CostUsd | EstCost
  datatype Stamp = Stamp(tokens: map<TokenMeter, int>, costs: map<CostMeter, real>, tier: Option<string>)

  const NO_STAMP := Stamp(map[], map[], None)

  function TokensOf(s: Stamp, m: TokenMeter): int { if m in s.tokens then s.tokens[m] else 0 }

  function CostOf(s: Stamp, m: CostMeter): real { if m in s.costs then s.costs[m] else 0.0 }

  datatype SpecialistOutput = SpecialistOutput(id: string, status: Status, findings: seq<Report>,
                                               skipReason: Option<string>, stamp: Stamp)

  /** One slice of a leaf's files: what a single dispatch call is asked to review. */
  datatype ReviewUnit = ReviewUnit(leafId: string, subIndex: nat, totalSubs: nat, files: seq<string>)

  function SeverityRank(severity: string): (r: nat)
    ensures r <= 3
    ensures severity != "critical" && severity != "important" ==> r <= 1
  {
    if severity == "critical" then 3
    else if severity == "important" then 2
    else if severity == "minor" then 1
    else 0
  }

  predicate Blocking(severity: string) {
    severity == "critical" || severity == "important"
  }

  /** Who is credited with reviewing which file because of a finding. */
  function Credit(fs: seq<Record>): set<(string, string)> {
    set r, leaf | r in fs && leaf in r.flaggedBy :: (r.report.file, leaf)
  }

  /** Who stands behind a finding that can block a release. */
  function BlockingLeaves(fs: seq<Record>): set<string> {
    set r, leaf | r in fs && leaf in r.flaggedBy && Blocking(r.report.severity) :: leaf
  }

  // ---- counts ------------------------------------------------------------------------------

  const SEVERITIES := {"critical", "important", "minor"}

  function CountWhere(p: Record -> bool, rs: seq<Record>): nat {
    if rs == [] then 0 else CountWhere(p, rs[..|rs| - 1]) + if p(rs[|rs| - 1]) then 1 else 0
  }

  lemma CountSnoc(p: Record -> bool, rs: seq<Record>, r: Record)
    ensures CountWhere(p, rs + [r]) == CountWhere(p, rs) + if p(r) then 1 else 0
  {
    assert (rs + [r])[..|rs|] == rs;
  }

  /** Where in the list the findings of this kind stand. */
  function Places(p: Record -> bool, rs: seq<Record>): set<nat> {
    set i: nat | i < |rs| && p(rs[i])
  }

  lemma {:induction false} CountIsSize(p: Record -> bool, rs: seq<Record>)
    ensures CountWhere(p, rs) == |Places(p, rs)|
  {
    var n := |rs| - 1;
    if n < 0 {
    } else {
      CountIsSize(p, rs[..n]);
      assert Places(p, rs) == Places(p, rs[..n]) + if p(rs[n]) then {n} else {};
    }
  }
}
