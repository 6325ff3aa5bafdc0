/** When the order of the findings shows in the final list: exactly where it shows in the sorted one,
    as long as merging has nothing to do; and merging can hide it. */
module CollectOrder {
  import opened Util
  import opened Findings
  import opened Sorting
  import opened Dedup
  import opened DedupTheorems
  import opened Collect
  import opened CollectTheorems
  import SemanticMerge
  import MergeTheorems

  // ---- nothing to merge --------------------------------------------------------------------

  /** No two findings of different keys are related. */
  predicate KeysUnrelated(stream: seq<Stamped>) {
    forall x, y :: x in stream && y in stream && x.key != y.key ==> !SemanticMerge.Related(x.report, y.report)
  }

  lemma RawAt(stream: seq<Stamped>, i: nat) returns (s: Stamped)
    requires i < |Raw(stream)|
    ensures s in stream && s.report == Raw(stream)[i].report
    ensures i < |Fold(stream).order| && s.key == Fold(stream).order[i]
  {
    FoldShape(stream);
    var k := Fold(stream).order[i];
    assert k in Fold(stream).order;
    s := FindingOfKey(stream, k);
  }

  lemma RawUnrelated(stream: seq<Stamped>)
    requires KeysUnrelated(stream)
    ensures MergeTheorems.Unrelated(Raw(stream))
  {
    FoldShape(stream);
    forall i: nat, j: nat | SemanticMerge.Edge(Raw(stream), i, j) ensures i == j {
      var s := RawAt(stream, i);
      var t := RawAt(stream, j);
      assert s.key == t.key;
    }
  }

  /** Then the final list is the sorted one, tagged. */
  lemma UnmergedCollection(stream: seq<Stamped>, threshold: real)
    requires KeysUnrelated(stream)
    ensures Collected(stream, threshold) == TagAll(Sort(RecordLe, Raw(stream)), threshold)
  {
    var sorted := Sort(RecordLe, Raw(stream));
    RawUnrelated(stream);
    SortMultiset(RecordLe, Raw(stream));
    UnrelatedPermuted(Raw(stream), sorted);
    MergeTheorems.UnrelatedUnchanged(sorted);
    RecordLePreorder();
    SortSorted(RecordLe, Raw(stream));
    SortFixed(RecordLe, sorted);
  }

  predicate Untagged(r: Record) { r.corroboration == 0 && !r.primary }

  lemma RawUntagged(stream: seq<Stamped>)
    ensures forall r :: r in Sort(RecordLe, Raw(stream)) ==> Untagged(r)
  {
    SortElements(RecordLe, Raw(stream));
    forall r | r in Raw(stream) ensures Untagged(r) {
      var k, s := RawRecord(stream, r);
    }
  }

  lemma SameTagSame(a: Record, b: Record, threshold: real)
    requires Tagged(a, threshold) == Tagged(b, threshold) && Untagged(a) && Untagged(b)
    ensures a == b
  {
    var t := Tagged(a, threshold);
    assert a == t.(corroboration := 0, primary := false) == b;
  }

  lemma TagsTellApart(a: seq<Record>, b: seq<Record>, threshold: real)
    requires TagAll(a, threshold) == TagAll(b, threshold)
    requires (forall r :: r in a ==> Untagged(r)) && forall r :: r in b ==> Untagged(r)
    ensures a == b
  {
    assert |a| == |TagAll(a, threshold)| == |TagAll(b, threshold)| == |b|;
    forall i | 0 <= i < |a| ensures a[i] == b[i] {
      assert Untagged(a[i]) && Untagged(b[i]);
      assert Tagged(a[i], threshold) == TagAll(a, threshold)[i] == Tagged(b[i], threshold);
      SameTagSame(a[i], b[i], threshold);
    }
  }

  /** Among findings of which no two of different keys are related, shuffling never changes the final
      list exactly when the best under each key agree, no unnamed best has a named rival, and no two
      bests are tied. */
  lemma CollectionOrderIrrelevantIff(stream: seq<Stamped>, threshold: real)
    requires WellKeyed(stream) && KeysUnrelated(stream)
    ensures BestsAgree(stream) && Steady(stream) && NoTies(stream) <==>
      forall other :: multiset(other) == multiset(stream) ==>
        Collected(other, threshold) == Collected(stream, threshold)
  {
    SortOrderIrrelevantIff(stream);
    UnmergedCollection(stream, threshold);
    RawUntagged(stream);
    forall other | multiset(other) == multiset(stream)
      ensures Collected(other, threshold) == Collected(stream, threshold) <==>
        Sort(RecordLe, Raw(other)) == Sort(RecordLe, Raw(stream))
    {
      SameMultisetSameFindings(other, stream);
      UnmergedCollection(other, threshold);
      RawUntagged(other);
      if Collected(other, threshold) == Collected(stream, threshold) {
        TagsTellApart(Sort(RecordLe, Raw(other)), Sort(RecordLe, Raw(stream)), threshold);
      }
    }
  }

  // ---- merging can hide the order ----------------------------------------------------------

  lemma PairFacts(fs: seq<Record>, ms: seq<nat>)
    requires SemanticMerge.InRange(fs, ms) && |ms| == 2
    ensures var a, b := fs[ms[0]], fs[ms[1]];
      && fs[SemanticMerge.Heaviest(fs, ms)] == (if SemanticMerge.Outweighs(b, a) then b else a)
      && SemanticMerge.AllFlags(fs, ms) == a.flaggedBy + b.flaggedBy
  {
    var one := ms[..1];
    assert one[..0] == [] && ms[..0] == [];
    assert SemanticMerge.Heaviest(fs, one) == ms[0];
    assert SemanticMerge.AllFlags(fs, one) == SemanticMerge.AllFlags(fs, []) + fs[ms[0]].flaggedBy;
  }

  lemma PairWeight(fs: seq<Record>, ms: seq<nat>, gs: seq<Record>, ns: seq<nat>)
    requires SemanticMerge.InRange(fs, ms) && |ms| == 2 && SemanticMerge.InRange(gs, ns) && |ns| == 2
    requires fs[ms[0]] == gs[ns[1]] && fs[ms[1]] == gs[ns[0]]
    ensures SemanticMerge.TopWeight(fs, ms) == SemanticMerge.TopWeight(gs, ns)
  {
    var c, d := SemanticMerge.TopWeight(fs, ms), SemanticMerge.TopWeight(gs, ns);
    assert c >= SemanticMerge.Weight(fs[ms[0]]) && c >= SemanticMerge.Weight(fs[ms[1]]);
    assert d >= SemanticMerge.Weight(gs[ns[0]]) && d >= SemanticMerge.Weight(gs[ns[1]]);
  }

  lemma PairRepresentedAlike(fs: seq<Record>, ms: seq<nat>, gs: seq<Record>, ns: seq<nat>)
    requires SemanticMerge.InRange(fs, ms) && |ms| == 2 && SemanticMerge.InRange(gs, ns) && |ns| == 2
    requires fs[ms[0]] == gs[ns[1]] && fs[ms[1]] == gs[ns[0]] && SemanticMerge.Outweighs(fs[ms[0]], fs[ms[1]])
    ensures SemanticMerge.Represent(fs, ms) == SemanticMerge.Represent(gs, ns)
  {
    PairFacts(fs, ms);
    PairFacts(gs, ns);
    PairWeight(fs, ms, gs, ns);
  }

  lemma MergedPair(fs: seq<Record>) returns (ms: seq<nat>)
    requires |fs| == 2 && SemanticMerge.Edge(fs, 0, 1)
    ensures SemanticMerge.InRange(fs, ms) && |ms| == 2 && ms[0] == 0 && ms[1] == 1
    ensures SemanticMerge.Merged(fs) == [SemanticMerge.Represent(fs, ms)]
  {
    RelatedTwinsMerge(fs);
    ms := SemanticMerge.GroupOf(fs, 0);
  }

  /** Two related records merge to the same one in either order, unless they weigh the same. */
  lemma PairMergesAlike(u: Record, v: Record)
    requires SemanticMerge.Related(u.report, v.report) && SemanticMerge.Outweighs(u, v)
    ensures SemanticMerge.Merged([u, v]) == SemanticMerge.Merged([v, u])
  {
    SemanticMerge.RelatedSymmetric(u.report, v.report);
    var ms := MergedPair([u, v]);
    var ns := MergedPair([v, u]);
    PairRepresentedAlike([u, v], ms, [v, u], ns);
  }

  lemma TiedPairSorted(u: Record, v: Record)
    requires Tied(u.report, v.report)
    ensures Sort(RecordLe, [u, v]) == [u, v]
  {
    TiedBothWays(u.report, v.report);
    SortFixed(RecordLe, [u, v]);
  }

  lemma LonelyBest(s: Stamped, t: Stamped)
    requires s.key != t.key
    ensures Best([s] + [t], s) && Best([s] + [t], t)
  {
    StringLeTotal(s.id, s.id);
    StringLeTotal(t.id, t.id);
    var all := [s] + [t];
    assert all[0] == s && all[1] == t;
  }

  /** Without that the condition is not necessary: a finding and its twin at line 0 are tied, but if
      they are related and one is reported with more confidence, the order does not show. */
  lemma MergedTieHidesOrder(s: Stamped, t: Stamped, threshold: real)
    requires s.key != t.key && Tied(s.report, t.report) && SemanticMerge.Related(s.report, t.report)
    requires s.report.confidence.GetOr(0.0) > t.report.confidence.GetOr(0.0)
    ensures !NoTies([s] + [t])
    ensures Collected([s] + [t], threshold) == Collected([t] + [s], threshold)
  {
    var u, v := RecordOf(Entry(s.report, {s.id}, s.id)), RecordOf(Entry(t.report, {t.id}, t.id));
    RawOfTwo(s, t);
    RawOfTwo(t, s);
    TiedBothWays(s.report, t.report);
    TiedPairSorted(u, v);
    TiedPairSorted(v, u);
    PairMergesAlike(u, v);
    LonelyBest(s, t);
  }
}
