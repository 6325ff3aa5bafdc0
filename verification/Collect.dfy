/** Finding collection from end to end: deduplicate, sort, merge near-duplicates, sort again, and mark
    the findings worth blocking on. */
module Collect {
  import opened Util
  import opened Findings
  import opened Sorting
  import Dedup
  import SemanticMerge

  // ---- the report order --------------------------------------------------------------------

  function LineKey(r: Report): int { r.line.GetOr(0) }

  /** Severest first, then by file, line and normalised title. */
  predicate ReportLe(a: Report, b: Report) {
    var x, y := SeverityRank(a.severity), SeverityRank(b.severity);
    if x != y then x > y
    else if a.file != b.file then StringLe(a.file, b.file)
    else if LineKey(a) != LineKey(b) then LineKey(a) < LineKey(b)
    else StringLe(Dedup.NormaliseTitle(a.title), Dedup.NormaliseTitle(b.title))
  }

  predicate RecordLe(a: Record, b: Record) { ReportLe(a.report, b.report) }

  lemma ReportLeTotal(a: Report, b: Report)
    ensures ReportLe(a, b) || ReportLe(b, a)
  {
    StringLeTotal(a.file, b.file);
    StringLeTotal(Dedup.NormaliseTitle(a.title), Dedup.NormaliseTitle(b.title));
  }

  lemma ReportLeTransitive(a: Report, b: Report, c: Report)
    requires ReportLe(a, b) && ReportLe(b, c)
    ensures ReportLe(a, c)
  {
    if a.file != b.file && b.file != c.file && a.file == c.file
       && StringLe(a.file, b.file) && StringLe(b.file, c.file) {
      StringLeAntisymmetric(a.file, b.file);
    } else if StringLe(a.file, b.file) && StringLe(b.file, c.file) {
      StringLeTransitive(a.file, b.file, c.file);
    }
    var x, y, z := Dedup.NormaliseTitle(a.title), Dedup.NormaliseTitle(b.title), Dedup.NormaliseTitle(c.title);
    if StringLe(x, y) && StringLe(y, z) {
      StringLeTransitive(x, y, z);
    }
  }

  lemma RecordLePreorder()
    ensures TotalPreorder(RecordLe)
  {
    forall a: Record, b: Record ensures RecordLe(a, b) || RecordLe(b, a) { ReportLeTotal(a.report, b.report); }
    forall a: Record, b: Record, c: Record | RecordLe(a, b) && RecordLe(b, c) ensures RecordLe(a, c) {
      ReportLeTransitive(a.report, b.report, c.report);
    }
  }

  // ---- from the dictionary to the list -----------------------------------------------------

  function RecordOf(e: Dedup.Entry): Record {
    Record(e.report, e.flaggedBy, e.winner, None, 0, false, None)
  }

  function RecordsOf(t: Dedup.Table): (rs: seq<Record>)
    requires forall k :: k in t.order ==> k in t.byKey
    ensures |rs| == |t.order|
    ensures forall i :: 0 <= i < |rs| ==> rs[i] == RecordOf(t.byKey[t.order[i]])
  {
    seq(|t.order|, i requires 0 <= i < |t.order| => RecordOf(t.byKey[t.order[i]]))
  }

  ghost function Raw(stream: seq<Dedup.Stamped>): seq<Record> {
    Dedup.FoldShape(stream);
    RecordsOf(Dedup.Fold(stream))
  }

  // ---- which findings matter ---------------------------------------------------------------

  /** Trusts a stated confidence; without one, a critical finding or a corroborated important one. */
  predicate IsPrimary(r: Record, threshold: real) {
    if r.report.confidence.Some? then r.report.confidence.value >= threshold
    else r.report.severity == "critical" || (r.report.severity == "important" && |r.flaggedBy| >= 2)
  }

  function Tagged(r: Record, threshold: real): Record {
    r.(corroboration := |r.flaggedBy|, primary := IsPrimary(r, threshold))
  }

  function TagAll(rs: seq<Record>, threshold: real): (r: seq<Record>)
    ensures |r| == |rs| && forall i :: 0 <= i < |r| ==> r[i] == Tagged(rs[i], threshold)
  {
    seq(|rs|, i requires 0 <= i < |rs| => Tagged(rs[i], threshold))
  }

  ghost predicate CountsSeverities(counts: map<string, nat>, rs: seq<Record>) {
    && counts.Keys == SEVERITIES
    && forall s :: s in SEVERITIES ==> counts[s] == CountWhere((r: Record) => r.report.severity == s, rs)
  }

  datatype Collection = Collection(findings: seq<Record>, counts: map<string, nat>, primaryCount: nat)

  /** The final list of findings. */
  ghost function Collected(stream: seq<Dedup.Stamped>, threshold: real): seq<Record> {
    TagAll(Sort(RecordLe, SemanticMerge.Merged(Sort(RecordLe, Raw(stream)))), threshold)
  }

  /** Marks the records in place. */
  method TagEach(rs: seq<Record>, threshold: real) returns (out: seq<Record>)
    ensures out == TagAll(rs, threshold)
  {
    out := rs;
    for i := 0 to |rs|
      invariant |out| == |rs|
      invariant forall j :: 0 <= j < |rs| ==> out[j] == if j < i then Tagged(rs[j], threshold) else rs[j]
    {
      var r := out[i];
      r := r.(corroboration := |r.flaggedBy|);
      if r.report.confidence.Some? {
        r := r.(primary := r.report.confidence.value >= threshold);
      } else {
        r := r.(primary := r.report.severity == "critical"
                        || (r.report.severity == "important" && r.corroboration >= 2));
      }
      out := out[i := r];
    }
  }

  method CountSeverities(rs: seq<Record>) returns (counts: map<string, nat>)
    ensures CountsSeverities(counts, rs)
  {
    counts := map["critical" := 0, "important" := 0, "minor" := 0];
    for i := 0 to |rs|
      invariant CountsSeverities(counts, rs[..i])
    {
      assert rs[..i + 1][..i] == rs[..i];
      var s := rs[i].report.severity;
      if s in counts {
        counts := counts[s := counts[s] + 1];
      }
    }
    assert rs[..|rs|] == rs;
  }

  method CountPrimary(rs: seq<Record>) returns (n: nat)
    ensures n == CountWhere((r: Record) => r.primary, rs)
  {
    n := 0;
    for i := 0 to |rs|
      invariant n == CountWhere((r: Record) => r.primary, rs[..i])
    {
      assert rs[..i + 1][..i] == rs[..i];
      n := n + if rs[i].primary then 1 else 0;
    }
    assert rs[..|rs|] == rs;
  }
}
