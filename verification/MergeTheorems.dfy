/** What the semantic merge guarantees about its output, whatever findings it is given. */
module MergeTheorems {
  import opened Util
  import opened Findings
  import opened SemanticMerge

  // ---- the groups --------------------------------------------------------------------------

  lemma GroupIndex(fs: seq<Record>, x: nat) returns (t: nat)
    requires x < |fs|
    ensures t < |Merged(fs)| && x in GroupOf(fs, t)
    ensures Linked(fs, Leaders(fs, |fs|)[t], x)
  {
    var l := LeaderOf(fs, x);
    assert l in Leaders(fs, |fs|);
    t :| 0 <= t < |Leaders(fs, |fs|)| && Leaders(fs, |fs|)[t] == l;
  }

  lemma {:induction false} LeadersDistinct(fs: seq<Record>, k: nat)
    requires k <= |fs|
    ensures Distinct(Leaders(fs, k))
  {
    if k == 0 {
    } else {
      LeadersDistinct(fs, k - 1);
    }
  }

  /** Two findings end up in one record exactly when a chain of related findings joins them. */
  lemma SameGroupIffLinked(fs: seq<Record>, x: nat, y: nat)
    requires x < |fs| && y < |fs|
    ensures Linked(fs, x, y) <==>
      exists t :: 0 <= t < |Merged(fs)| && x in GroupOf(fs, t) && y in GroupOf(fs, t)
  {
    if t :| 0 <= t < |Merged(fs)| && x in GroupOf(fs, t) && y in GroupOf(fs, t) {
      var l := Leaders(fs, |fs|)[t];
      LinkedSymmetric(fs, l, x);
      LinkedTransitive(fs, x, l, y);
    }
    if Linked(fs, x, y) {
      var t := GroupIndex(fs, x);
      LinkedTransitive(fs, Leaders(fs, |fs|)[t], x, y);
      assert y in GroupOf(fs, t);
    }
  }

  lemma FlagsAreUnion(fs: seq<Record>, ms: seq<nat>, leaf: string)
    requires Within(fs, ms)
    ensures leaf in AllFlags(fs, ms) <==> exists k :: 0 <= k < |ms| && leaf in fs[ms[k]].flaggedBy
  {
  }

  function Max0(x: real): real { if x < 0.0 then 0.0 else x }

  /** The record of a group is one of its members, of the highest severity, with the strongest
      confidence and everyone's flags. */
  lemma Representative(fs: seq<Record>, ms: seq<nat>) returns (rep: nat)
    requires InRange(fs, ms)
    ensures rep in ms && rep < |fs|
    ensures var r := Represent(fs, ms);
      && r.report == fs[rep].report.(confidence := r.report.confidence)
      && (forall k :: 0 <= k < |ms| ==> SeverityRank(fs[ms[k]].report.severity) <= SeverityRank(r.report.severity))
      && (forall k :: 0 <= k < |ms| ==> Weight(fs[ms[k]]) <= Max0(Weight(r)))
      && (exists k :: 0 <= k < |ms| && Weight(r) == Weight(fs[ms[k]]))
      && (forall leaf :: leaf in r.flaggedBy <==> exists k :: 0 <= k < |ms| && leaf in fs[ms[k]].flaggedBy)
  {
    rep := if |ms| == 1 then ms[0] else Heaviest(fs, ms);
    forall leaf
      ensures leaf in Represent(fs, ms).flaggedBy <==> exists k :: 0 <= k < |ms| && leaf in fs[ms[k]].flaggedBy
    {
      FlagsAreUnion(fs, ms, leaf);
    }
  }

  lemma GroupsStayInOneFile(fs: seq<Record>, t: nat, x: nat)
    requires t < |Merged(fs)| && x in GroupOf(fs, t)
    ensures x < |fs| && Merged(fs)[t].report.file == fs[x].report.file
  {
    var l := Leaders(fs, |fs|)[t];
    LinkedWithin(fs, l, x);
    var m := Representative(fs, GroupOf(fs, t));
    LinkedWithin(fs, l, m);
  }

  function Identity(n: nat): int { n }

  ghost function GroupSizes(fs: seq<Record>, ls: seq<nat>, k: nat): (sizes: seq<nat>)
    requires k <= |fs|
    ensures |sizes| == |ls| && forall t :: 0 <= t < |ls| ==> sizes[t] == |Members(fs, ls[t], k)|
  {
    seq(|ls|, (t: nat) requires t < |ls| => |Members(fs, ls[t], k)|)
  }

  lemma NewLeaderAlone(fs: seq<Record>, x: nat)
    requires x < |fs| && IsLeader(fs, x)
    ensures Members(fs, x, x + 1) == [x]
  {
    LinkedReflexive(fs, x);
    forall m: nat | m < x && Linked(fs, x, m) ensures false {
      LinkedSymmetric(fs, x, m);
    }
    if |Members(fs, x, x)| > 0 {
      assert Members(fs, x, x)[0] in Members(fs, x, x);
    }
  }

  lemma NewGroup(fs: seq<Record>, x: nat)
    requires x < |fs| && IsLeader(fs, x)
    ensures GroupSizes(fs, Leaders(fs, x + 1), x + 1) == GroupSizes(fs, Leaders(fs, x), x) + [1]
  {
    var ls := Leaders(fs, x);
    NewLeaderAlone(fs, x);
    forall t | 0 <= t < |ls| ensures |Members(fs, ls[t], x + 1)| == |Members(fs, ls[t], x)| {
      assert ls[t] in ls;
    }
  }

  lemma GrownGroup(fs: seq<Record>, x: nat, l: nat) returns (t: nat)
    requires x < |fs| && l < x && IsLeader(fs, l) && Linked(fs, l, x)
    requires forall l': nat :: l' < |fs| && IsLeader(fs, l') && Linked(fs, l', x) ==> l' == l
    ensures var before := GroupSizes(fs, Leaders(fs, x), x);
      t < |before| && GroupSizes(fs, Leaders(fs, x + 1), x + 1) == before[t := before[t] + 1]
  {
    var ls := Leaders(fs, x);
    assert Leaders(fs, x + 1) == ls;
    assert l in ls;
    LeadersDistinct(fs, x);
    t :| 0 <= t < |ls| && ls[t] == l;
    forall u | 0 <= u < |ls| && u != t ensures Members(fs, ls[u], x + 1) == Members(fs, ls[u], x) {
      assert ls[u] in ls;
    }
  }

  lemma {:induction false} GroupSizesSumUpTo(fs: seq<Record>, k: nat)
    requires k <= |fs|
    ensures Sum(Identity, GroupSizes(fs, Leaders(fs, k), k)) == k
  {
    if k == 0 {
    } else {
      var x := k - 1;
      GroupSizesSumUpTo(fs, x);
      var before, after := GroupSizes(fs, Leaders(fs, x), x), GroupSizes(fs, Leaders(fs, k), k);
      var l := LeaderOf(fs, x);
      if l == x {
        NewGroup(fs, x);
        SumAppend(Identity, before, [1]);
      } else {
        var t := GrownGroup(fs, x, l);
        SumUpdate(Identity, before, t, before[t] + 1);
      }
    }
  }

  /** No finding is lost or counted twice: the group sizes add up to the number of findings. */
  lemma GroupSizesSum(fs: seq<Record>)
    ensures Sum(Identity, GroupSizes(fs, Leaders(fs, |fs|), |fs|)) == |fs|
  {
    GroupSizesSumUpTo(fs, |fs|);
  }

  // ---- nothing the verdict needs is lost ---------------------------------------------------

  lemma MergedRecord(fs: seq<Record>, r: Record, leaf: string) returns (t: nat, x: nat)
    requires r in Merged(fs) && leaf in r.flaggedBy
    ensures t < |Merged(fs)| && r == Merged(fs)[t] && x in GroupOf(fs, t) && x < |fs| && leaf in fs[x].flaggedBy
  {
    t :| 0 <= t < |Merged(fs)| && Merged(fs)[t] == r;
    var ms := GroupOf(fs, t);
    var rep := Representative(fs, ms);
    var k :| 0 <= k < |ms| && leaf in fs[ms[k]].flaggedBy;
    x := ms[k];
  }

  lemma MemberFlags(fs: seq<Record>, x: nat) returns (t: nat)
    requires x < |fs|
    ensures t < |Merged(fs)| && fs[x].flaggedBy <= Merged(fs)[t].flaggedBy
    ensures Merged(fs)[t].report.file == fs[x].report.file
    ensures SeverityRank(fs[x].report.severity) <= SeverityRank(Merged(fs)[t].report.severity)
  {
    t := GroupIndex(fs, x);
    var ms := GroupOf(fs, t);
    var k :| 0 <= k < |ms| && ms[k] == x;
    var rep := Representative(fs, ms);
    GroupsStayInOneFile(fs, t, x);
  }

  /** Every (file, leaf) pair before the merge is there after it, and no other. */
  lemma MergeKeepsCredit(fs: seq<Record>)
    ensures Credit(Merged(fs)) == Credit(fs)
  {
    forall file, leaf | (file, leaf) in Credit(Merged(fs)) ensures (file, leaf) in Credit(fs) {
      var r :| r in Merged(fs) && leaf in r.flaggedBy && r.report.file == file;
      var t, x := MergedRecord(fs, r, leaf);
      GroupsStayInOneFile(fs, t, x);
      assert fs[x] in fs;
    }
    forall file, leaf | (file, leaf) in Credit(fs) ensures (file, leaf) in Credit(Merged(fs)) {
      var r :| r in fs && leaf in r.flaggedBy && r.report.file == file;
      var x :| 0 <= x < |fs| && fs[x] == r;
      var t := MemberFlags(fs, x);
      assert Merged(fs)[t] in Merged(fs);
    }
  }

  /** A leaf behind a critical or important finding stays behind one. */
  lemma MergeKeepsBlockingLeaves(fs: seq<Record>)
    ensures BlockingLeaves(fs) <= BlockingLeaves(Merged(fs))
  {
    forall leaf | leaf in BlockingLeaves(fs) ensures leaf in BlockingLeaves(Merged(fs)) {
      var r :| r in fs && leaf in r.flaggedBy && Blocking(r.report.severity);
      var x :| 0 <= x < |fs| && fs[x] == r;
      var t := MemberFlags(fs, x);
      assert Merged(fs)[t] in Merged(fs);
    }
  }

  // ---- a second pass changes nothing -------------------------------------------------------

  ghost predicate Unrelated(fs: seq<Record>) {
    forall x: nat, y: nat :: Edge(fs, x, y) ==> x == y
  }

  lemma UnrelatedLinks(fs: seq<Record>, x: nat, y: nat)
    requires Unrelated(fs) && Linked(fs, x, y)
    ensures x == y < |fs|
  {
    var via :| Walk(fs, x, y, via);
    WalkKeeps(fs, x, y, via, seq(|fs|, (i: nat) => i));
  }

  /** Representatives of different groups are never related. */
  lemma RepresentativesUnrelated(fs: seq<Record>)
    ensures Unrelated(Merged(fs))
  {
    var out := Merged(fs);
    forall s: nat, t: nat | Edge(out, s, t) ensures s == t {
      var a := Representative(fs, GroupOf(fs, s));
      var b := Representative(fs, GroupOf(fs, t));
      assert Edge(fs, a, b);
      var ls := Leaders(fs, |fs|);
      EdgeLinks(fs, a, b);
      LinkedTransitive(fs, ls[s], a, b);
      assert ls[s] in ls && ls[t] in ls;
      var l := LeaderOf(fs, b);
      LeadersDistinct(fs, |fs|);
    }
  }

  lemma {:induction false} UnrelatedLeaders(fs: seq<Record>, k: nat)
    requires Unrelated(fs) && k <= |fs|
    ensures Leaders(fs, k) == seq(k, (i: nat) => i)
  {
    if k == 0 {
    } else {
      var x := k - 1;
      UnrelatedLeaders(fs, x);
      forall j: nat | j < x && Linked(fs, j, x) ensures false {
        UnrelatedLinks(fs, j, x);
      }
    }
  }

  lemma {:induction false} UnrelatedMembers(fs: seq<Record>, x: nat, k: nat)
    requires Unrelated(fs) && x < |fs| && k <= |fs|
    ensures Members(fs, x, k) == if x < k then [x] else []
  {
    if k == 0 {
    } else {
      UnrelatedMembers(fs, x, k - 1);
      if Linked(fs, x, k - 1) {
        UnrelatedLinks(fs, x, k - 1);
      }
      LinkedReflexive(fs, x);
    }
  }

  lemma UnrelatedUnchanged(fs: seq<Record>)
    requires Unrelated(fs)
    ensures Merged(fs) == fs
  {
    UnrelatedLeaders(fs, |fs|);
    forall t | 0 <= t < |fs| ensures Merged(fs)[t] == fs[t] {
      UnrelatedMembers(fs, t, |fs|);
      assert GroupOf(fs, t) == [t];
    }
  }

  /** Merging is idempotent. */
  lemma MergeIdempotent(fs: seq<Record>)
    ensures Merged(Merged(fs)) == Merged(fs)
  {
    RepresentativesUnrelated(fs);
    UnrelatedUnchanged(Merged(fs));
  }

  lemma FewerLeaders(fs: seq<Record>, y: nat, k: nat)
    requires k <= |fs|
    ensures |Leaders(fs, k)| <= k
    ensures !IsLeader(fs, y) && y < k ==> |Leaders(fs, k)| < k
  {
  }

  /** A list is left alone exactly when no two of its findings are related. */
  lemma UnchangedIffUnrelated(fs: seq<Record>)
    ensures Merged(fs) == fs <==> Unrelated(fs)
  {
    if Unrelated(fs) {
      UnrelatedUnchanged(fs);
    } else {
      var a: nat, b: nat :| Edge(fs, a, b) && a != b;
      var x, y := if a < b then a else b, if a < b then b else a;
      EdgeLinks(fs, a, b);
      assert Linked(fs, x, y) && !IsLeader(fs, y);
      FewerLeaders(fs, y, |fs|);
    }
  }
}
