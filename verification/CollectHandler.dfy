/** The collection handler: what the completed specialists said, as the findings of the review. */
module CollectHandler {
  import opened Util
  import opened Findings
  import opened Sorting
  import opened Dedup
  import opened DedupTheorems
  import opened Collect
  import opened CollectTheorems
  import SemanticMerge
  import MergeTheorems

  // ---- who is heard ------------------------------------------------------------------------

  /** A specialist that completed said this. */
  ghost predicate Said(outputs: seq<SpecialistOutput>, o: SpecialistOutput, r: Report) {
    o in outputs && o.status == Completed && r in o.findings
  }

  /** One specialist's part of the stream: all it found in its order if it completed, else nothing. */
  lemma StreamOfOne(o: SpecialistOutput)
    ensures o.status != Completed ==> Stream([o]) == []
    ensures o.status == Completed ==>
      && |Stream([o])| == |o.findings|
      && forall i :: 0 <= i < |o.findings| ==> Stream([o])[i] == Stamped(o.id, DedupKey(o.findings[i]), o.findings[i])
  {
    assert [o][..0] == [];
  }

  lemma StreamSnoc(init: seq<SpecialistOutput>, last: SpecialistOutput)
    ensures Stream(init + [last]) == Stream(init) + Stream([last])
  {
    assert (init + [last])[..|init|] == init && [last][..0] == [];
    assert Stream([]) + FindingsOf(last) == FindingsOf(last);
  }

  /** The specialists are heard one after the other. */
  lemma StreamAppend(a: seq<SpecialistOutput>, b: seq<SpecialistOutput>)
    ensures Stream(a + b) == Stream(a) + Stream(b)
  {
    forall init, last ensures GrowsByOne(Stream, init, last) {
      StreamSnoc(init, last);
    }
    PutTogether(Stream, a, b);
  }

  ghost predicate SaidAlike(outputs: seq<SpecialistOutput>, s: Stamped) {
    exists o, r :: Said(outputs, o, r) && s == Stamped(o.id, DedupKey(r), r)
  }

  lemma OneSaid(o: SpecialistOutput, s: Stamped)
    ensures s in Stream([o]) <==> SaidAlike([o], s)
  {
    StreamOfOne(o);
    if s in Stream([o]) {
      var i :| 0 <= i < |Stream([o])| && Stream([o])[i] == s;
      assert Said([o], o, o.findings[i]);
    }
    if p, r :| Said([o], p, r) && s == Stamped(p.id, DedupKey(r), r) {
      var i :| 0 <= i < |o.findings| && o.findings[i] == r;
      assert Stream([o])[i] == s;
    }
  }

  lemma SaidOnEitherSide(a: seq<SpecialistOutput>, b: seq<SpecialistOutput>, s: Stamped)
    ensures SaidAlike(a + b, s) <==> SaidAlike(a, s) || SaidAlike(b, s)
  {
    forall o, r ensures Said(a + b, o, r) <==> Said(a, o, r) || Said(b, o, r) {
    }
  }

  /** The stream holds exactly what completed specialists said, under their ids and the reports' keys. */
  lemma {:induction false} StreamIff(outputs: seq<SpecialistOutput>, s: Stamped)
    ensures s in Stream(outputs) <==>
      exists o, r :: Said(outputs, o, r) && s == Stamped(o.id, DedupKey(r), r)
  {
    if outputs == [] {
    } else {
      var init, last := outputs[..|outputs| - 1], outputs[|outputs| - 1];
      assert outputs == init + [last];
      StreamSnoc(init, last);
      StreamIff(init, s);
      OneSaid(last, s);
      SaidOnEitherSide(init, [last], s);
      assert SaidAlike(outputs, s) <==> s in Stream(outputs);
    }
  }

  /** Who said something about which file. */
  ghost function SaidOf(outputs: seq<SpecialistOutput>): set<(string, string)> {
    set o, r | o in outputs && o.status == Completed && r in o.findings :: (r.file, o.id)
  }

  /** Who reported something critical or important. */
  ghost function SaidBlocking(outputs: seq<SpecialistOutput>): set<string> {
    set o, r | o in outputs && o.status == Completed && r in o.findings
               && r.severity in {"critical", "important"} :: o.id
  }

  lemma SaidAs(outputs: seq<SpecialistOutput>, s: Stamped) returns (o: SpecialistOutput, r: Report)
    requires s in Stream(outputs)
    ensures Said(outputs, o, r) && s == Stamped(o.id, DedupKey(r), r)
  {
    StreamIff(outputs, s);
    o, r :| Said(outputs, o, r) && s == Stamped(o.id, DedupKey(r), r);
  }

  lemma SaidIsStreamed(outputs: seq<SpecialistOutput>, o: SpecialistOutput, r: Report)
    requires Said(outputs, o, r)
    ensures Stamped(o.id, DedupKey(r), r) in Stream(outputs)
  {
    StreamIff(outputs, Stamped(o.id, DedupKey(r), r));
  }

  lemma StreamCredit(outputs: seq<SpecialistOutput>)
    ensures RawCredit(Stream(outputs)) == SaidOf(outputs)
  {
    forall p | p in RawCredit(Stream(outputs)) ensures p in SaidOf(outputs) {
      var s :| s in Stream(outputs) && (s.report.file, s.id) == p;
      var o, r := SaidAs(outputs, s);
    }
    forall p | p in SaidOf(outputs) ensures p in RawCredit(Stream(outputs)) {
      var o, r :| o in outputs && o.status == Completed && r in o.findings && (r.file, o.id) == p;
      SaidIsStreamed(outputs, o, r);
    }
  }

  lemma StreamBlocking(outputs: seq<SpecialistOutput>)
    ensures RawBlocking(Stream(outputs)) == SaidBlocking(outputs)
  {
    forall id | id in RawBlocking(Stream(outputs)) ensures id in SaidBlocking(outputs) {
      var s :| s in Stream(outputs) && Blocking(s.report.severity) && s.id == id;
      var o, r := SaidAs(outputs, s);
    }
    forall id | id in SaidBlocking(outputs) ensures id in RawBlocking(Stream(outputs)) {
      var o, r :| o in outputs && o.status == Completed && r in o.findings && r.severity in {"critical", "important"}
                  && o.id == id;
      SaidIsStreamed(outputs, o, r);
    }
  }

  /** Nothing is made up: every finding is, up to its confidence, what some completed specialist said. */
  ghost predicate Worded(outputs: seq<SpecialistOutput>, f: Record) {
    exists o, r :: Said(outputs, o, r) && f.report == r.(confidence := f.report.confidence)
  }

  lemma MergedFrom(fs: seq<Record>, f: Record) returns (x: nat)
    requires f in SemanticMerge.Merged(fs)
    ensures x < |fs| && f.report == fs[x].report.(confidence := f.report.confidence)
  {
    var t :| 0 <= t < |SemanticMerge.Merged(fs)| && SemanticMerge.Merged(fs)[t] == f;
    x := MergeTheorems.Representative(fs, SemanticMerge.GroupOf(fs, t));
  }

  lemma CollectedWorded(outputs: seq<SpecialistOutput>, threshold: real, f: Record)
    requires f in Collected(Stream(outputs), threshold)
    ensures Worded(outputs, f)
  {
    var sorted := Sort(RecordLe, Raw(Stream(outputs)));
    var merged := SemanticMerge.Merged(sorted);
    var i :| 0 <= i < |TagAll(Sort(RecordLe, merged), threshold)| && TagAll(Sort(RecordLe, merged), threshold)[i] == f;
    var m := Sort(RecordLe, merged)[i];
    SortElements(RecordLe, merged);
    assert m in merged;
    var x := MergedFrom(sorted, m);
    SortElements(RecordLe, Raw(Stream(outputs)));
    assert sorted[x] in Raw(Stream(outputs));
    var k, s := RawRecord(Stream(outputs), sorted[x]);
    var o, r := SaidAs(outputs, s);
  }

  // ---- order and weight --------------------------------------------------------------------

  function LineOrZero(r: Report): int { match r.line case Some(n) => n case None => 0 }

  /** Critical before important before minor before the rest; then by file, line and title. */
  ghost predicate InOrder(a: Report, b: Report) {
    && (b.severity == "critical" ==> a.severity == "critical")
    && (b.severity == "important" ==> a.severity in {"critical", "important"})
    && (b.severity == "minor" ==> a.severity in {"critical", "important", "minor"})
    && (a.severity == b.severity && a.file != b.file ==> StringLe(a.file, b.file))
    && (a.severity == b.severity && a.file == b.file ==> LineOrZero(a) <= LineOrZero(b))
    && (a.severity == b.severity && a.file == b.file && LineOrZero(a) == LineOrZero(b) ==>
          StringLe(NormaliseTitle(a.title), NormaliseTitle(b.title)))
  }

  ghost predicate TwoNames(names: set<string>) {
    exists x, y :: x in names && y in names && x != y
  }

  lemma SubsetNoLarger(a: set<string>, b: set<string>)
    requires a <= b
    ensures |a| <= |b|
  {
    assert b == a + (b - a);
  }

  lemma TwoNamesIff(names: set<string>)
    ensures TwoNames(names) <==> |names| >= 2
  {
    if |names| >= 2 {
      var x :| x in names;
      assert |names - {x}| >= 1;
      var y :| y in names - {x};
      assert TwoNames(names);
    }
    if x, y :| x in names && y in names && x != y {
      assert {x, y} <= names;
      SubsetNoLarger({x, y}, names);
    }
  }

  /** A verified confidence decides alone whether a finding is primary; without one a critical finding
      is, an important one is when two specialists agree, and no other. */
  ghost predicate Weighed(f: Record, threshold: real) {
    && f.corroboration == |f.flaggedBy|
    && (f.report.confidence.Some? ==> (f.primary <==> f.report.confidence.value >= threshold))
    && (f.report.confidence.None? && f.report.severity == "critical" ==> f.primary)
    && (f.report.confidence.None? && f.report.severity == "important" ==> (f.primary <==> TwoNames(f.flaggedBy)))
    && (f.report.confidence.None? && f.report.severity !in {"critical", "important"} ==> !f.primary)
  }

  lemma CollectedInOrder(stream: seq<Stamped>, threshold: real)
    ensures var fs := Collected(stream, threshold);
      && (forall i, j :: 0 <= i < j < |fs| ==> InOrder(fs[i].report, fs[j].report))
      && (forall f :: f in fs ==> Weighed(f, threshold))
  {
    var fs := Collected(stream, threshold);
    CollectionIsNormal(stream, threshold);
    forall i, j | 0 <= i < j < |fs| ensures InOrder(fs[i].report, fs[j].report) {
      assert RecordLe(fs[i], fs[j]);
    }
    forall f | f in fs ensures Weighed(f, threshold) {
      TwoNamesIff(f.flaggedBy);
    }
  }

  lemma CreditOfSaid(outputs: seq<SpecialistOutput>, threshold: real)
    ensures (forall o, r :: Said(outputs, o, r) ==> ':' !in r.file) ==>
      Credit(Collected(Stream(outputs), threshold)) == SaidOf(outputs)
  {
    if forall o, r :: Said(outputs, o, r) ==> ':' !in r.file {
      forall s | s in Stream(outputs) ensures ColonFree(s.report.file) {
        var o, r := SaidAs(outputs, s);
      }
      StreamWellKeyed(outputs);
      ColonFreeFilesAreSeparated(Stream(outputs));
      CollectionKeepsCredit(Stream(outputs), threshold);
      StreamCredit(outputs);
    }
  }

  /** The promises of the handler, for what the fold, the sorts and the merge compute. */
  lemma CollectionTold(outputs: seq<SpecialistOutput>, threshold: real, c: Collection)
    requires c.findings == Collected(Stream(outputs), threshold) && CountsSeverities(c.counts, c.findings)
    ensures c.counts.Keys == {"critical", "important", "minor"}
    ensures forall s :: s in c.counts ==> c.counts[s] == |Places((r: Record) => r.report.severity == s, c.findings)|
    ensures (forall o, r :: Said(outputs, o, r) ==> ':' !in r.file) ==> Credit(c.findings) == SaidOf(outputs)
    ensures SaidBlocking(outputs) <= BlockingLeaves(c.findings)
    ensures forall f :: f in c.findings ==> Worded(outputs, f) && Weighed(f, threshold)
    ensures forall i, j :: 0 <= i < j < |c.findings| ==> InOrder(c.findings[i].report, c.findings[j].report)
  {
    forall s | s in c.counts ensures c.counts[s] == |Places((r: Record) => r.report.severity == s, c.findings)| {
      CountIsSize((r: Record) => r.report.severity == s, c.findings);
    }
    CreditOfSaid(outputs, threshold);
    StreamBlocking(outputs);
    CollectionKeepsBlocking(Stream(outputs), threshold);
    forall f | f in c.findings ensures Worded(outputs, f) {
      CollectedWorded(outputs, threshold, f);
    }
    CollectedInOrder(Stream(outputs), threshold);
  }

  /** What the review is told: every completed specialist keeps the credit for its files and stays
      behind something blocking if it reported anything blocking, nothing is invented, and the list is
      in order. */
  method CollectFindings(outputs: seq<SpecialistOutput>, primaryThreshold: Option<real>) returns (c: Collection)
    ensures c.findings == Collected(Stream(outputs), primaryThreshold.GetOr(0.75))
    ensures c.counts.Keys == {"critical", "important", "minor"}
    ensures forall s :: s in c.counts ==> c.counts[s] == |Places((r: Record) => r.report.severity == s, c.findings)|
    ensures c.primaryCount == |Places((r: Record) => r.primary, c.findings)|
    ensures (forall o, r :: Said(outputs, o, r) ==> ':' !in r.file) ==> Credit(c.findings) == SaidOf(outputs)
    ensures SaidBlocking(outputs) <= BlockingLeaves(c.findings)
    ensures forall f :: f in c.findings ==> Worded(outputs, f) && Weighed(f, primaryThreshold.GetOr(0.75))
    ensures forall i, j :: 0 <= i < j < |c.findings| ==> InOrder(c.findings[i].report, c.findings[j].report)
  {
    var t := FoldSpecialists(outputs);
    FoldShape(Stream(outputs));
    var findings := RecordsOf(t);
    findings := Sort(RecordLe, findings);
    findings := SemanticMerge.SemanticMerge(findings);
    findings := Sort(RecordLe, findings);
    findings := TagEach(findings, primaryThreshold.GetOr(0.75));
    var counts := CountSeverities(findings);
    var primaryCount := CountPrimary(findings);
    c := Collection(findings, counts, primaryCount);
    CountIsSize((r: Record) => r.primary, c.findings);
    CollectionTold(outputs, primaryThreshold.GetOr(0.75), c);
  }
}
