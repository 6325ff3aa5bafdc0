/** What collection guarantees: its result does not depend on the order the specialists answered in,
    and nothing that could block a release or earn coverage credit is lost on the way. */
module CollectTheorems {
  import opened Util
  import opened Findings
  import opened Sorting
  import opened Dedup
  import opened DedupTheorems
  import opened Collect
  import SemanticMerge
  import MergeTheorems

  // ---- order -------------------------------------------------------------------------------

  /** The report order cannot tell them apart. */
  predicate Tied(a: Report, b: Report) {
    && SeverityRank(a.severity) == SeverityRank(b.severity) && a.file == b.file && LineKey(a) == LineKey(b)
    && NormaliseTitle(a.title) == NormaliseTitle(b.title)
  }

  /** No two best findings of different keys are tied. */
  ghost predicate NoTies(stream: seq<Stamped>) {
    forall x, y :: Best(stream, x) && Best(stream, y) && x.key != y.key ==> !Tied(x.report, y.report)
  }

  lemma TiedBothWays(a: Report, b: Report)
    ensures Tied(a, b) <==> ReportLe(a, b) && ReportLe(b, a)
  {
    StringLeTotal(a.file, a.file);
    StringLeTotal(NormaliseTitle(a.title), NormaliseTitle(a.title));
    if ReportLe(a, b) && ReportLe(b, a) {
      if a.file != b.file {
        StringLeAntisymmetric(a.file, b.file);
      } else if LineKey(a) == LineKey(b) {
        StringLeAntisymmetric(NormaliseTitle(a.title), NormaliseTitle(b.title));
      }
    }
  }

  lemma RawRecord(stream: seq<Stamped>, r: Record) returns (k: string, s: Stamped)
    requires r in Raw(stream)
    ensures k in Fold(stream).byKey && r == RecordOf(Fold(stream).byKey[k])
    ensures s in stream && s.key == k && s.report == r.report
  {
    FoldShape(stream);
    var t := Fold(stream);
    var i :| 0 <= i < |Raw(stream)| && Raw(stream)[i] == r;
    k := t.order[i];
    assert k in t.order;
    s :| s in stream && s.key == k && s.report == t.byKey[k].report;
  }

  lemma RawHas(stream: seq<Stamped>, k: string)
    requires k in Fold(stream).byKey
    ensures RecordOf(Fold(stream).byKey[k]) in Raw(stream)
  {
    FoldShape(stream);
    var t := Fold(stream);
    var i :| 0 <= i < |t.order| && t.order[i] == k;
    assert Raw(stream)[i] == RecordOf(t.byKey[k]);
  }

  lemma RecordKey(stream: seq<Stamped>, k: string)
    requires WellKeyed(stream) && k in Fold(stream).byKey
    ensures DedupKey(Fold(stream).byKey[k].report) == k
  {
    FoldShape(stream);
    var s :| s in stream && s.key == k && s.report == Fold(stream).byKey[k].report;
  }

  lemma RawDistinct(stream: seq<Stamped>)
    requires WellKeyed(stream)
    ensures Distinct(Raw(stream))
  {
    FoldShape(stream);
    var t, rs := Fold(stream), Raw(stream);
    forall i, j | 0 <= i < j < |rs| ensures rs[i] != rs[j] {
      RecordKey(stream, t.order[i]);
      RecordKey(stream, t.order[j]);
    }
  }

  /** Records that the sort cannot tell apart are the same record. */
  lemma SortKeySeparates(stream: seq<Stamped>, a: Record, b: Record)
    requires Steady(stream) && NoTies(stream)
    requires a in Raw(stream) && b in Raw(stream) && RecordLe(a, b) && RecordLe(b, a)
    ensures a == b
  {
    var k, s := RawRecord(stream, a);
    var l, t := RawRecord(stream, b);
    if k != l {
      var x := WinnerIsBest(stream, k);
      var y := WinnerIsBest(stream, l);
      TiedBothWays(x.report, y.report);
      assert false;
    }
  }

  lemma SameTableSameRecords(a: seq<Stamped>, b: seq<Stamped>)
    requires WellKeyed(a) && WellKeyed(b) && Fold(a).byKey == Fold(b).byKey
    ensures multiset(Raw(a)) == multiset(Raw(b))
  {
    RawDistinct(a);
    RawDistinct(b);
    forall r ensures r in Raw(a) <==> r in Raw(b) {
      if r in Raw(a) {
        var k, s := RawRecord(a, r);
        RawHas(b, k);
      }
      if r in Raw(b) {
        var k, s := RawRecord(b, r);
        RawHas(a, k);
      }
    }
    SameElementsSameMultiset(Raw(a), Raw(b));
  }

  lemma SameTableSameSort(a: seq<Stamped>, b: seq<Stamped>)
    requires WellKeyed(a) && WellKeyed(b) && Steady(a) && NoTies(a)
    requires Fold(a).byKey == Fold(b).byKey
    ensures Sort(RecordLe, Raw(a)) == Sort(RecordLe, Raw(b))
  {
    SameTableSameRecords(a, b);
    RecordLePreorder();
    SortSorted(RecordLe, Raw(a));
    SortSorted(RecordLe, Raw(b));
    SortMultiset(RecordLe, Raw(a));
    SortMultiset(RecordLe, Raw(b));
    SortElements(RecordLe, Raw(a));
    forall x, y | x in Sort(RecordLe, Raw(a)) && y in Sort(RecordLe, Raw(a)) && RecordLe(x, y) && RecordLe(y, x)
      ensures x == y
    {
      SortKeySeparates(a, x, y);
    }
    SortedUnique(RecordLe, Sort(RecordLe, Raw(a)), Sort(RecordLe, Raw(b)));
  }

  lemma SharedRecord(a: seq<Stamped>, b: seq<Stamped>, k: string)
    requires WellKeyed(a) && WellKeyed(b) && k in Fold(a).byKey
    requires forall r :: r in Raw(a) ==> r in Raw(b)
    ensures k in Fold(b).byKey && Fold(b).byKey[k] == Fold(a).byKey[k]
  {
    RawHas(a, k);
    RecordKey(a, k);
    var l, s := RawRecord(b, RecordOf(Fold(a).byKey[k]));
    RecordKey(b, l);
  }

  /** A record shows the key it is filed under. */
  lemma SameSortSameTable(a: seq<Stamped>, b: seq<Stamped>)
    requires WellKeyed(a) && WellKeyed(b) && Sort(RecordLe, Raw(a)) == Sort(RecordLe, Raw(b))
    ensures Fold(a).byKey == Fold(b).byKey
  {
    SortElements(RecordLe, Raw(a));
    SortElements(RecordLe, Raw(b));
    forall k | k in Fold(a).byKey ensures k in Fold(b).byKey && Fold(b).byKey[k] == Fold(a).byKey[k] {
      SharedRecord(a, b, k);
    }
    forall k | k in Fold(b).byKey ensures k in Fold(a).byKey {
      SharedRecord(b, a, k);
    }
  }

  lemma {:induction false} FirstKey(x: Stamped, rest: seq<Stamped>)
    ensures Fold([x] + rest).order != [] && Fold([x] + rest).order[0] == x.key
  {
    if rest == [] {
      FoldSnoc([], x);
      assert [] + [x] == [x] + rest;
    } else {
      var init, last := rest[..|rest| - 1], rest[|rest| - 1];
      FirstKey(x, init);
      assert [x] + rest == ([x] + init) + [last];
      FoldSnoc([x] + init, last);
    }
  }

  /** The first record inserted comes out ahead of every record it is tied with. */
  lemma FirstRecordLeads(x: Stamped, rest: seq<Stamped>) returns (p: nat)
    requires x.key in Fold([x] + rest).byKey
    ensures var r, out := RecordOf(Fold([x] + rest).byKey[x.key]), Sort(RecordLe, Raw([x] + rest));
      p < |out| && out[p] == r && forall j :: 0 <= j < p ==> !RecordLe(r, out[j])
  {
    FirstKey(x, rest);
    p := InsertPlace(RecordLe, Raw([x] + rest)[0], Sort(RecordLe, Raw([x] + rest)[1..]));
  }

  /** Two records that may precede each other cannot both come first. */
  lemma LeadersMeet(out: seq<Record>, p: nat, q: nat)
    requires p < |out| && q < |out| && RecordLe(out[p], out[q]) && RecordLe(out[q], out[p])
    requires forall j :: 0 <= j < p ==> !RecordLe(out[p], out[j])
    requires forall j :: 0 <= j < q ==> !RecordLe(out[q], out[j])
    ensures p == q
  {
  }

  lemma TiedFrontsDiffer(x: Stamped, rest: seq<Stamped>, y: Stamped, others: seq<Stamped>)
    requires x.key in Fold([x] + rest).byKey && y.key in Fold([y] + others).byKey
    requires var r, s := RecordOf(Fold([x] + rest).byKey[x.key]), RecordOf(Fold([y] + others).byKey[y.key]);
      r != s && RecordLe(r, s) && RecordLe(s, r)
    ensures Sort(RecordLe, Raw([x] + rest)) != Sort(RecordLe, Raw([y] + others))
  {
    var p := FirstRecordLeads(x, rest);
    var q := FirstRecordLeads(y, others);
    var out := Sort(RecordLe, Raw([x] + rest));
    if out == Sort(RecordLe, Raw([y] + others)) {
      LeadersMeet(out, p, q);
    }
  }

  lemma TiedBestsShow(stream: seq<Stamped>, i: nat, j: nat)
    requires WellKeyed(stream) && Steady(stream) && i < |stream| && j < |stream|
    requires Best(stream, stream[i]) && Best(stream, stream[j]) && stream[i].key != stream[j].key
    requires Tied(stream[i].report, stream[j].report)
    ensures Sort(RecordLe, Raw(ToFront(stream, i))) != Sort(RecordLe, Raw(ToFront(stream, j)))
  {
    var x, y := stream[i], stream[j];
    TiedBothWays(x.report, y.report);
    BestToFront(stream, i);
    BestToFront(stream, j);
    assert x.key == DedupKey(x.report) && y.key == DedupKey(y.report);
    TiedFrontsDiffer(x, stream[..i] + stream[i + 1..], y, stream[..j] + stream[j + 1..]);
  }

  lemma TiesShow(stream: seq<Stamped>)
    requires WellKeyed(stream) && Steady(stream) && !NoTies(stream)
    ensures exists other ::
      multiset(other) == multiset(stream) && Sort(RecordLe, Raw(other)) != Sort(RecordLe, Raw(stream))
  {
    var x, y :| Best(stream, x) && Best(stream, y) && x.key != y.key && Tied(x.report, y.report);
    var i :| 0 <= i < |stream| && stream[i] == x;
    var j :| 0 <= j < |stream| && stream[j] == y;
    TiedBestsShow(stream, i, j);
  }

  /** Shuffling the findings never changes the sorted records exactly when the best under each key
      agree, no unnamed best has a named rival, and no two bests are tied. */
  lemma SortOrderIrrelevantIff(stream: seq<Stamped>)
    requires WellKeyed(stream)
    ensures BestsAgree(stream) && Steady(stream) && NoTies(stream) <==>
      forall other :: multiset(other) == multiset(stream) ==>
        Sort(RecordLe, Raw(other)) == Sort(RecordLe, Raw(stream))
  {
    OrderIrrelevantIff(stream);
    forall other | multiset(other) == multiset(stream) ensures WellKeyed(other) {
      SameMultisetSameFindings(other, stream);
    }
    if BestsAgree(stream) && Steady(stream) && NoTies(stream) {
      forall other | multiset(other) == multiset(stream)
        ensures Sort(RecordLe, Raw(other)) == Sort(RecordLe, Raw(stream))
      {
        SameTableSameSort(stream, other);
      }
    } else if BestsAgree(stream) && Steady(stream) {
      TiesShow(stream);
    } else {
      var other :| multiset(other) == multiset(stream) && Fold(other).byKey != Fold(stream).byKey;
      if Sort(RecordLe, Raw(other)) == Sort(RecordLe, Raw(stream)) {
        SameSortSameTable(other, stream);
      }
    }
  }

  /** Only line 0 can tie: it sorts like no line at all. */
  lemma NoLineZeroNoTies(stream: seq<Stamped>)
    requires WellKeyed(stream) && forall s :: s in stream ==> s.report.line != Some(0)
    ensures NoTies(stream)
  {
    forall x, y | Best(stream, x) && Best(stream, y) && Tied(x.report, y.report) ensures x.key == y.key {
      assert x.report.line == y.report.line;
    }
  }

  lemma {:induction false} StreamElements(outputs: seq<SpecialistOutput>, s: Stamped)
    ensures s in Stream(outputs) <==> exists o :: o in outputs && s in FindingsOf(o)
  {
    if outputs == [] {
    } else {
      var init, last := outputs[..|outputs| - 1], outputs[|outputs| - 1];
      assert outputs == init + [last];
      StreamElements(init, s);
    }
  }

  lemma StreamWellKeyed(outputs: seq<SpecialistOutput>)
    ensures WellKeyed(Stream(outputs))
  {
    forall s | s in Stream(outputs) ensures s.key == DedupKey(s.report) {
      StreamElements(outputs, s);
    }
  }

  /** Whatever order the specialists finish in, the final findings are the same list. */
  lemma CollectionOrderIrrelevant(a: seq<SpecialistOutput>, b: seq<SpecialistOutput>, threshold: real)
    requires multiset(a) == multiset(b)
    requires BestsAgree(Stream(a)) && Steady(Stream(a)) && NoTies(Stream(a))
    ensures Collected(Stream(a), threshold) == Collected(Stream(b), threshold)
  {
    forall s ensures s in Stream(a) <==> s in Stream(b) {
      StreamElements(a, s);
      StreamElements(b, s);
      forall o ensures o in a <==> o in b { assert o in a <==> o in multiset(a); }
    }
    SameFindingsSameTable(Stream(a), Stream(b));
    StreamWellKeyed(a);
    StreamWellKeyed(b);
    SameTableSameSort(Stream(a), Stream(b));
  }

  function StampedAt(r: Report, id: string, line: Option<int>): Stamped {
    var twin := r.(line := line);
    Stamped(id, DedupKey(twin), twin)
  }

  predicate Twins(a: Report, b: Report) {
    a.(line := None) == b.(line := None) && LineKey(a) == LineKey(b)
  }

  lemma TwinsStaySorted(u: Record, v: Record)
    requires Twins(u.report, v.report)
    ensures SortedBy(RecordLe, [u, v]) && Sort(RecordLe, [u, v]) == [u, v]
  {
    StringLeTotal(NormaliseTitle(u.report.title), NormaliseTitle(u.report.title));
    SortFixed(RecordLe, [u, v]);
  }

  lemma RelatedTwinsMerge(fs: seq<Record>)
    requires |fs| == 2 && SemanticMerge.Edge(fs, 0, 1)
    ensures |SemanticMerge.Merged(fs)| == 1
    ensures var g := SemanticMerge.GroupOf(fs, 0); |g| == 2 && g[0] == 0 && g[1] == 1
  {
    var one := 1;
    SemanticMerge.EdgeLinks(fs, 0, one);
    SemanticMerge.LinkedReflexive(fs, 0);
    assert SemanticMerge.IsLeader(fs, 0) && !SemanticMerge.IsLeader(fs, one);
    assert SemanticMerge.Leaders(fs, one) == [0] && SemanticMerge.Leaders(fs, one + 1) == [0];
    assert SemanticMerge.Members(fs, 0, one) == [0] && SemanticMerge.Members(fs, 0, one + 1) == [0] + [one];
  }

  lemma FirstOfEqualsIsHeaviest(fs: seq<Record>, ms: seq<nat>)
    requires SemanticMerge.InRange(fs, ms) && |ms| == 2
    requires !SemanticMerge.Outweighs(fs[ms[1]], fs[ms[0]])
    ensures SemanticMerge.Heaviest(fs, ms) == ms[0]
  {
    var first := ms[..1];
    assert SemanticMerge.Heaviest(fs, first) == ms[0];
  }

  lemma FirstTwinRepresents(fs: seq<Record>)
    requires |fs| == 2 && Twins(fs[0].report, fs[1].report)
    ensures var m := SemanticMerge.Merged(fs);
      m == fs || (|m| == 1 && m[0].report.line == fs[0].report.line)
  {
    if SemanticMerge.Edge(fs, 0, 1) {
      RelatedTwinsMerge(fs);
      FirstOfEqualsIsHeaviest(fs, SemanticMerge.GroupOf(fs, 0));
    } else {
      forall i: nat, j: nat | SemanticMerge.Edge(fs, i, j) ensures i == j {
        SemanticMerge.RelatedSymmetric(fs[i].report, fs[j].report);
      }
      MergeTheorems.UnrelatedUnchanged(fs);
    }
  }

  lemma RawOfTwo(s: Stamped, t: Stamped)
    requires s.key != t.key
    ensures Raw([s] + [t]) == [RecordOf(Entry(s.report, {s.id}, s.id)), RecordOf(Entry(t.report, {t.id}, t.id))]
  {
    FoldFirst(s);
    FoldSnoc([], s);
    assert [] + [s] == [s];
    FoldSnoc([s], t);
  }

  lemma FirstTwinLeads(s: Stamped, t: Stamped, threshold: real)
    requires s.key != t.key && Twins(s.report, t.report)
    ensures Collected([s] + [t], threshold) != []
    ensures Collected([s] + [t], threshold)[0].report.line == s.report.line
  {
    RawOfTwo(s, t);
    var raw := Raw([s] + [t]);
    TwinsStaySorted(raw[0], raw[1]);
    assert raw == [raw[0], raw[1]];
    FirstTwinRepresents(raw);
    var m := SemanticMerge.Merged(raw);
    SortElements(RecordLe, m);
    if |m| == 1 {
      assert Sort(RecordLe, m)[0] in m;
    }
  }

  /** Line 0 sorts like no line at all, so with it the order shows: the list starts with whichever
      twin was reported first. */
  lemma LineZeroSpoilsOrder(r: Report, a: string, b: string, threshold: real)
    ensures var s, t := StampedAt(r, a, Some(0)), StampedAt(r, b, None);
      && Collected([s] + [t], threshold) != [] && Collected([s] + [t], threshold)[0].report.line == Some(0)
      && Collected([t] + [s], threshold) != [] && Collected([t] + [s], threshold)[0].report.line == None
  {
    var s, t := StampedAt(r, a, Some(0)), StampedAt(r, b, None);
    assert LineText(Some(0)) == "0" && LineText(None) == "";
    assert |s.key| == |t.key| + 1;
    FirstTwinLeads(s, t, threshold);
    FirstTwinLeads(t, s, threshold);
  }

  // ---- nothing is lost ---------------------------------------------------------------------

  lemma SortKeepsFacts(rs: seq<Record>)
    ensures Credit(Sort(RecordLe, rs)) == Credit(rs) && BlockingLeaves(Sort(RecordLe, rs)) == BlockingLeaves(rs)
  {
    SortElements(RecordLe, rs);
  }

  lemma TagKeepsFacts(rs: seq<Record>, threshold: real)
    ensures Credit(TagAll(rs, threshold)) == Credit(rs)
    ensures BlockingLeaves(TagAll(rs, threshold)) == BlockingLeaves(rs)
  {
    var out := TagAll(rs, threshold);
    forall r | r in rs ensures Tagged(r, threshold) in out {
      var i :| 0 <= i < |rs| && rs[i] == r;
      assert out[i] == Tagged(r, threshold);
    }
    forall r | r in out ensures exists q :: q in rs && r == Tagged(q, threshold) {
      var i :| 0 <= i < |out| && out[i] == r;
      assert rs[i] in rs;
    }
    forall p | p in Credit(rs) ensures p in Credit(out) {
      var r :| r in rs && p.1 in r.flaggedBy && r.report.file == p.0;
      assert Tagged(r, threshold) in out;
    }
    forall leaf | leaf in BlockingLeaves(rs) ensures leaf in BlockingLeaves(out) {
      var r :| r in rs && leaf in r.flaggedBy && Blocking(r.report.severity);
      assert Tagged(r, threshold) in out;
    }
  }

  lemma RawFacts(stream: seq<Stamped>)
    ensures Credit(Raw(stream)) == TableCredit(Fold(stream))
    ensures BlockingLeaves(Raw(stream)) == TableBlocking(Fold(stream))
  {
    var t := Fold(stream);
    forall p | p in Credit(Raw(stream)) ensures p in TableCredit(t) {
      var r :| r in Raw(stream) && p.1 in r.flaggedBy && r.report.file == p.0;
      var k, s := RawRecord(stream, r);
    }
    forall p | p in TableCredit(t) ensures p in Credit(Raw(stream)) {
      var k :| k in t.byKey && p.1 in t.byKey[k].flaggedBy && t.byKey[k].report.file == p.0;
      RawHas(stream, k);
    }
    forall leaf | leaf in BlockingLeaves(Raw(stream)) ensures leaf in TableBlocking(t) {
      var r :| r in Raw(stream) && leaf in r.flaggedBy && Blocking(r.report.severity);
      var k, s := RawRecord(stream, r);
    }
    forall leaf | leaf in TableBlocking(t) ensures leaf in BlockingLeaves(Raw(stream)) {
      var k :| k in t.byKey && leaf in t.byKey[k].flaggedBy && Blocking(t.byKey[k].report.severity);
      RawHas(stream, k);
    }
  }

  lemma CollectionFacts(stream: seq<Stamped>, threshold: real)
    ensures Credit(Collected(stream, threshold)) == TableCredit(Fold(stream))
    ensures TableBlocking(Fold(stream)) <= BlockingLeaves(Collected(stream, threshold))
  {
    var sorted := Sort(RecordLe, Raw(stream));
    RawFacts(stream);
    SortKeepsFacts(Raw(stream));
    MergeTheorems.MergeKeepsCredit(sorted);
    MergeTheorems.MergeKeepsBlockingLeaves(sorted);
    SortKeepsFacts(SemanticMerge.Merged(sorted));
    TagKeepsFacts(Sort(RecordLe, SemanticMerge.Merged(sorted)), threshold);
  }

  /** From the specialists' raw findings to the final list, the credited (file, leaf) pairs are
      unchanged whenever keys tell files apart. */
  lemma CollectionKeepsCredit(stream: seq<Stamped>, threshold: real)
    requires KeysSeparateFiles(stream)
    ensures Credit(Collected(stream, threshold)) == RawCredit(stream)
  {
    FoldKeepsCredit(stream);
    CollectionFacts(stream, threshold);
  }

  /** They are unchanged, whoever reported what, exactly when no two files share a key. */
  lemma CollectionCreditKeptIff(reports: seq<Report>, threshold: real)
    ensures FilesSeparated(reports) <==> forall ids: seq<string> :: |ids| == |reports| ==>
      Credit(Collected(Assigned(ids, reports), threshold)) == RawCredit(Assigned(ids, reports))
  {
    CreditKeptIff(reports);
    forall ids: seq<string> | |ids| == |reports|
      ensures Credit(Collected(Assigned(ids, reports), threshold)) == TableCredit(Fold(Assigned(ids, reports)))
    {
      CollectionFacts(Assigned(ids, reports), threshold);
    }
  }

  /** A leaf that reported anything critical or important is behind a critical or important finding
      of the final list. */
  lemma CollectionKeepsBlocking(stream: seq<Stamped>, threshold: real)
    ensures RawBlocking(stream) <= BlockingLeaves(Collected(stream, threshold))
  {
    FoldKeepsBlocking(stream);
    CollectionFacts(stream, threshold);
  }

  // ---- the result ---------------------------------------------------------------------------

  lemma WithoutOne(rs: seq<Record>, p: nat)
    requires p < |rs|
    ensures multiset(rs[..p] + rs[p + 1..]) == multiset(rs) - multiset{rs[p]}
  {
    assert rs == rs[..p] + [rs[p]] + rs[p + 1..];
  }

  lemma TwoPlaces(rs: seq<Record>, u: Record, v: Record) returns (p: nat, q: nat)
    requires multiset{u, v} <= multiset(rs)
    ensures p < |rs| && q < |rs| && p != q && rs[p] == u && rs[q] == v
  {
    assert u in multiset(rs);
    p :| 0 <= p < |rs| && rs[p] == u;
    WithoutOne(rs, p);
    var rest := rs[..p] + rs[p + 1..];
    assert v in multiset(rest);
    var k :| 0 <= k < |rest| && rest[k] == v;
    q := if k < p then k else k + 1;
  }

  lemma PairWithin(rs: seq<Record>, i: nat, j: nat)
    requires i < j < |rs|
    ensures multiset{rs[i], rs[j]} <= multiset(rs)
  {
    assert rs == rs[..i] + [rs[i]] + rs[i + 1..j] + [rs[j]] + rs[j + 1..];
  }

  lemma UnrelatedPermuted(a: seq<Record>, b: seq<Record>)
    requires multiset(a) == multiset(b) && MergeTheorems.Unrelated(a)
    ensures MergeTheorems.Unrelated(b)
  {
    forall i: nat, j: nat | SemanticMerge.Edge(b, i, j) ensures i == j {
      if i != j {
        PairWithin(b, if i < j then i else j, if i < j then j else i);
        assert multiset{b[i], b[j]} == multiset{b[j], b[i]};
        var p, q := TwoPlaces(a, b[i], b[j]);
        assert SemanticMerge.Edge(a, p, q);
        assert false;
      }
    }
  }

  /** The final list is sorted, and no two of its findings are related: merging it again would change
      nothing. */
  lemma CollectionIsNormal(stream: seq<Stamped>, threshold: real)
    ensures SortedBy(RecordLe, Collected(stream, threshold))
    ensures SemanticMerge.Merged(Collected(stream, threshold)) == Collected(stream, threshold)
  {
    var merged := SemanticMerge.Merged(Sort(RecordLe, Raw(stream)));
    RecordLePreorder();
    SortSorted(RecordLe, merged);
    SortMultiset(RecordLe, merged);
    var s, out := Sort(RecordLe, merged), Collected(stream, threshold);
    forall i, j | 0 <= i < j < |out| ensures RecordLe(out[i], out[j]) {
      assert RecordLe(s[i], s[j]);
    }
    MergeTheorems.RepresentativesUnrelated(Sort(RecordLe, Raw(stream)));
    UnrelatedPermuted(merged, s);
    forall i: nat, j: nat | SemanticMerge.Edge(out, i, j) ensures i == j {
      assert SemanticMerge.Edge(s, i, j);
    }
    MergeTheorems.UnrelatedUnchanged(out);
  }
}
