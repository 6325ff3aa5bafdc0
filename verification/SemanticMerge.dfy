/** Second half of finding collection: findings of one file that sit on the same known line or read
    alike are grouped by union-find with path halving, and each group becomes one record. */
module SemanticMerge {
  import opened Util
  import opened Findings
  import Text

  // ---- likeness ----------------------------------------------------------------------------

  predicate IsWordChar(c: char) {
    'a' <= c <= 'z' || '0' <= c <= '9' || c == '_'
  }

  function WordLength(s: string): (n: nat)
    ensures n <= |s|
    ensures s != [] && IsWordChar(s[0]) ==> n > 0
  {
    if s == [] || !IsWordChar(s[0]) then 0 else 1 + WordLength(s[1..])
  }

  /** The maximal runs of word characters. */
  function Words(s: string): set<string>
    decreases |s|
  {
    if s == [] then {}
    else if IsWordChar(s[0]) then {s[..WordLength(s)]} + Words(s[WordLength(s)..])
    else Words(s[1..])
  }

  /** At least half of all the words used are used by both. */
  predicate Similar(a: string, b: string) {
    var x, y := Words(Text.Lower(a)), Words(Text.Lower(b));
    x + y != {} && 2 * |x * y| >= |x + y|
  }

  function FindingText(r: Report): string {
    Text.Strip(r.title + ". " + r.description)
  }

  predicate Related(a: Report, b: Report) {
    && a.file == b.file
    && ((a.line.Some? && a.line == b.line) || Similar(FindingText(a), FindingText(b)))
  }

  lemma RelatedSymmetric(a: Report, b: Report)
    requires Related(a, b)
    ensures Related(b, a)
  {
    var x, y := Words(Text.Lower(FindingText(a))), Words(Text.Lower(FindingText(b)));
    assert x + y == y + x && x * y == y * x;
  }

  // ---- linked findings ---------------------------------------------------------------------

  predicate Edge(fs: seq<Record>, x: nat, y: nat) {
    x < |fs| && y < |fs| && Related(fs[x].report, fs[y].report)
  }

  /** A walk from `x` to `y` along related findings. */
  predicate Walk(fs: seq<Record>, x: nat, y: nat, via: seq<nat>)
    decreases |via|
  {
    if via == [] then x == y < |fs| else Edge(fs, x, via[0]) && Walk(fs, via[0], y, via[1..])
  }

  /** The reflexive and transitive closure of being related. */
  ghost predicate Linked(fs: seq<Record>, x: nat, y: nat) {
    exists via :: Walk(fs, x, y, via)
  }

  lemma WalkTransitive(fs: seq<Record>, x: nat, y: nat, z: nat, v: seq<nat>, w: seq<nat>)
    requires Walk(fs, x, y, v) && Walk(fs, y, z, w)
    ensures Walk(fs, x, z, v + w)
    decreases |v|
  {
    if v == [] {
      assert v + w == w;
    } else {
      WalkTransitive(fs, v[0], y, z, v[1..], w);
      assert (v + w)[1..] == v[1..] + w;
    }
  }

  lemma LinkedTransitive(fs: seq<Record>, x: nat, y: nat, z: nat)
    requires Linked(fs, x, y) && Linked(fs, y, z)
    ensures Linked(fs, x, z)
  {
    var v :| Walk(fs, x, y, v);
    var w :| Walk(fs, y, z, w);
    WalkTransitive(fs, x, y, z, v, w);
  }

  lemma LinkedReflexive(fs: seq<Record>, x: nat)
    requires x < |fs|
    ensures Linked(fs, x, x)
  {
    assert Walk(fs, x, x, []);
  }

  lemma EdgeLinks(fs: seq<Record>, x: nat, y: nat)
    requires Edge(fs, x, y)
    ensures Linked(fs, x, y) && Linked(fs, y, x)
  {
    RelatedSymmetric(fs[x].report, fs[y].report);
    assert Walk(fs, y, y, [y][1..]) && Walk(fs, x, x, [x][1..]);
    assert Walk(fs, x, y, [y]);
    assert Walk(fs, y, x, [x]);
  }

  lemma WalkReversed(fs: seq<Record>, x: nat, y: nat, via: seq<nat>)
    requires Walk(fs, x, y, via)
    ensures Linked(fs, y, x)
    decreases |via|
  {
    if via == [] {
      LinkedReflexive(fs, x);
    } else {
      WalkReversed(fs, via[0], y, via[1..]);
      EdgeLinks(fs, x, via[0]);
      LinkedTransitive(fs, y, via[0], x);
    }
  }

  lemma LinkedSymmetric(fs: seq<Record>, x: nat, y: nat)
    requires Linked(fs, x, y)
    ensures Linked(fs, y, x)
  {
    var via :| Walk(fs, x, y, via);
    WalkReversed(fs, x, y, via);
  }

  /** A property shared by related findings is shared by linked ones. */
  lemma {:induction false} WalkKeeps<T>(fs: seq<Record>, x: nat, y: nat, via: seq<nat>, f: seq<T>)
    requires Walk(fs, x, y, via) && |f| == |fs|
    requires forall a: nat, b: nat :: Edge(fs, a, b) ==> f[a] == f[b]
    ensures x < |fs| && y < |fs| && f[x] == f[y]
    decreases |via|
  {
    if via == [] {
    } else {
      WalkKeeps(fs, via[0], y, via[1..], f);
    }
  }

  lemma LinkedWithin(fs: seq<Record>, x: nat, y: nat)
    requires Linked(fs, x, y)
    ensures x < |fs| && y < |fs| && fs[x].report.file == fs[y].report.file
  {
    var via :| Walk(fs, x, y, via);
    var files := Map((r: Record) => r.report.file, fs);
    WalkKeeps(fs, x, y, via, files);
  }

  // ---- union-find --------------------------------------------------------------------------

  ghost predicate Node(p: seq<nat>, root: seq<nat>, depth: seq<nat>, x: nat)
    requires |p| == |root| == |depth| && x < |p|
  {
    && p[x] < |p| && root[x] < |p|
    && root[p[x]] == root[x] && root[root[x]] == root[x]
    && (p[x] == x <==> root[x] == x)
    && (p[x] != x ==> depth[p[x]] < depth[x])
  }

  /** Every parent chain leads, at strictly smaller depth, to the root its members share. */
  ghost predicate Forest(p: seq<nat>, root: seq<nat>, depth: seq<nat>) {
    |p| == |root| == |depth| && forall x: nat :: x < |p| ==> Node(p, root, depth, x)
  }

  /** Path halving: skipping one generation leaves every root where it was. */
  lemma Halved(p: seq<nat>, root: seq<nat>, depth: seq<nat>, x: nat)
    requires Forest(p, root, depth) && x < |p| && p[x] != x
    ensures p[x] < |p| && p[p[x]] < |p| && Forest(p[x := p[p[x]]], root, depth)
    ensures root[p[p[x]]] == root[x] && depth[p[p[x]]] < depth[x]
  {
    assert Node(p, root, depth, x);
    assert Node(p, root, depth, p[x]);
    assert Node(p, root, depth, p[p[x]]);
    var q := p[x := p[p[x]]];
    forall y: nat | y < |q| ensures Node(q, root, depth, y) {
      assert Node(p, root, depth, y);
    }
  }

  method Find(parent: array<nat>, x0: nat, ghost root: seq<nat>, ghost depth: seq<nat>) returns (x: nat)
    requires Forest(parent[..], root, depth) && x0 < parent.Length
    modifies parent
    ensures Forest(parent[..], root, depth)
    ensures x < parent.Length && x == root[x0] && root[x] == x
  {
    x := x0;
    while parent[x] != x
      invariant Forest(parent[..], root, depth)
      invariant x < parent.Length && root[x] == root[x0]
      decreases depth[x]
    {
      ghost var p := parent[..];
      Halved(p, root, depth, x);
      parent[x] := parent[parent[x]];
      assert parent[..] == p[x := p[p[x]]];
      x := parent[x];
    }
    assert Node(parent[..], root, depth, x);
  }

  /** Every member of the class of `ri` moves to the class of `rj`. */
  function Rerooted(root: seq<nat>, ri: nat, rj: nat): (r: seq<nat>)
    ensures |r| == |root|
    ensures forall x :: 0 <= x < |r| ==> r[x] == if root[x] == ri then rj else root[x]
  {
    Map((a: nat) => if a == ri then rj else a, root)
  }

  ghost function Deepened(root: seq<nat>, depth: seq<nat>, ri: nat, rj: nat): (r: seq<nat>)
    requires |root| == |depth| && rj < |depth|
    ensures |r| == |depth|
    ensures forall x :: 0 <= x < |r| ==> r[x] == if root[x] == ri then depth[x] + depth[rj] + 1 else depth[x]
  {
    seq(|depth|, (x: nat) requires x < |depth| => if root[x] == ri then depth[x] + depth[rj] + 1 else depth[x])
  }

  lemma Hung(p: seq<nat>, root: seq<nat>, depth: seq<nat>, ri: nat, rj: nat)
    requires Forest(p, root, depth) && ri < |p| && rj < |p| && ri != rj && root[ri] == ri && root[rj] == rj
    ensures Forest(p[ri := rj], Rerooted(root, ri, rj), Deepened(root, depth, ri, rj))
  {
    var q, after, deeper := p[ri := rj], Rerooted(root, ri, rj), Deepened(root, depth, ri, rj);
    forall y: nat | y < |q| ensures Node(q, after, deeper, y) {
      assert Node(p, root, depth, y);
      assert Node(p, root, depth, ri);
      assert Node(p, root, depth, rj);
    }
  }

  method Union(parent: array<nat>, i: nat, j: nat, ghost root: seq<nat>, ghost depth: seq<nat>)
      returns (ghost root': seq<nat>, ghost depth': seq<nat>)
    requires Forest(parent[..], root, depth) && i < parent.Length && j < parent.Length
    modifies parent
    ensures Forest(parent[..], root', depth')
    ensures root' == Rerooted(root, root[i], root[j])
  {
    var rj := Find(parent, j, root, depth);
    var ri := Find(parent, i, root, depth);
    ghost var p := parent[..];
    parent[ri] := rj;
    assert parent[..] == p[ri := rj];
    root' := Rerooted(root, ri, rj);
    if ri == rj {
      depth' := depth;
      assert Node(p, root, depth, ri);
      assert parent[..] == p && root' == root;
    } else {
      depth' := Deepened(root, depth, ri, rj);
      Hung(p, root, depth, ri, rj);
    }
  }

  /** Sharing a root is an equivalence that relates only linked findings... */
  ghost predicate SharersLinked(fs: seq<Record>, root: seq<nat>) {
    |root| == |fs|
    && forall x: nat, y: nat :: x < |fs| && y < |fs| && root[x] == root[y] ==> Linked(fs, x, y)
  }

  predicate Before(a: nat, b: nat, i: nat, j: nat) { a < i || (a == i && b < j) }

  /** ... and that has joined every related pair examined so far. */
  ghost predicate EdgesJoined(fs: seq<Record>, root: seq<nat>, i: nat, j: nat) {
    |root| == |fs|
    && forall a: nat, b: nat :: a < b && Before(a, b, i, j) && Edge(fs, a, b) ==> root[a] == root[b]
  }

  lemma UnionKeepsSharersLinked(fs: seq<Record>, root: seq<nat>, i: nat, j: nat)
    requires SharersLinked(fs, root) && Edge(fs, i, j)
    ensures SharersLinked(fs, Rerooted(root, root[i], root[j]))
  {
    var after := Rerooted(root, root[i], root[j]);
    EdgeLinks(fs, i, j);
    forall x: nat, y: nat | x < |fs| && y < |fs| && after[x] == after[y] ensures Linked(fs, x, y) {
      if root[x] != root[y] {
        if root[x] == root[i] {
          LinkedTransitive(fs, x, i, j);
          LinkedTransitive(fs, x, j, y);
        } else {
          LinkedTransitive(fs, x, j, i);
          LinkedTransitive(fs, x, i, y);
        }
      }
    }
  }

  ghost predicate Classes(fs: seq<Record>, root: seq<nat>) {
    |root| == |fs|
    && forall x: nat, y: nat :: x < |fs| && y < |fs| ==> (root[x] == root[y] <==> Linked(fs, x, y))
  }

  lemma AllEdgesJoinedMeansClasses(fs: seq<Record>, root: seq<nat>)
    requires SharersLinked(fs, root) && EdgesJoined(fs, root, |fs|, 0)
    ensures Classes(fs, root)
  {
    forall a: nat, b: nat | Edge(fs, a, b) ensures root[a] == root[b] {
      RelatedSymmetric(fs[a].report, fs[b].report);
      assert Edge(fs, b, a);
      assert Before(a, b, |fs|, 0) && Before(b, a, |fs|, 0);
    }
    forall x: nat, y: nat | x < |fs| && y < |fs| && Linked(fs, x, y) ensures root[x] == root[y] {
      var via :| Walk(fs, x, y, via);
      WalkKeeps(fs, x, y, via, root);
    }
  }

  lemma UnionJoinsEdge(fs: seq<Record>, root: seq<nat>, i: nat, j: nat)
    requires EdgesJoined(fs, root, i, j) && i < j < |fs|
    ensures EdgesJoined(fs, Rerooted(root, root[i], root[j]), i, j + 1)
  {
    var after := Rerooted(root, root[i], root[j]);
    forall a: nat, b: nat | a < b && Before(a, b, i, j + 1) && Edge(fs, a, b) ensures after[a] == after[b] {
      if a != i || b != j {
        assert Before(a, b, i, j);
      }
    }
  }

  lemma NoEdgeToJoin(fs: seq<Record>, root: seq<nat>, i: nat, j: nat)
    requires EdgesJoined(fs, root, i, j) && !Edge(fs, i, j)
    ensures EdgesJoined(fs, root, i, j + 1)
  {
    forall a: nat, b: nat | a < b && Before(a, b, i, j + 1) && Edge(fs, a, b) ensures root[a] == root[b] {
      assert Before(a, b, i, j);
    }
  }

  lemma RowDone(fs: seq<Record>, root: seq<nat>, i: nat)
    requires EdgesJoined(fs, root, i, |fs|)
    ensures EdgesJoined(fs, root, i + 1, 0)
  {
    forall a: nat, b: nat | a < b && Before(a, b, i + 1, 0) && Edge(fs, a, b) ensures root[a] == root[b] {
      assert Before(a, b, i, |fs|);
    }
  }

  lemma RowStart(fs: seq<Record>, root: seq<nat>, i: nat)
    requires EdgesJoined(fs, root, i, 0)
    ensures EdgesJoined(fs, root, i, i + 1)
  {
    forall a: nat, b: nat | a < b && Before(a, b, i, i + 1) && Edge(fs, a, b) ensures root[a] == root[b] {
      assert Before(a, b, i, 0);
    }
  }

  /** The invariant of the double loop, before pair (i, j). */
  ghost predicate Joining(p: seq<nat>, fs: seq<Record>, root: seq<nat>, depth: seq<nat>, i: nat, j: nat) {
    Forest(p, root, depth) && |p| == |fs| && SharersLinked(fs, root) && EdgesJoined(fs, root, i, j)
  }

  method JoinPair(parent: array<nat>, fs: seq<Record>, i: nat, j: nat, ghost root0: seq<nat>, ghost depth0: seq<nat>)
      returns (ghost root: seq<nat>, ghost depth: seq<nat>)
    requires Joining(parent[..], fs, root0, depth0, i, j) && i < j < |fs|
    modifies parent
    ensures Joining(parent[..], fs, root, depth, i, j + 1)
  {
    root, depth := root0, depth0;
    if Related(fs[i].report, fs[j].report) {
      UnionKeepsSharersLinked(fs, root, i, j);
      UnionJoinsEdge(fs, root, i, j);
      root, depth := Union(parent, i, j, root, depth);
    } else {
      NoEdgeToJoin(fs, root, i, j);
    }
  }

  method JoinRow(parent: array<nat>, fs: seq<Record>, i: nat, ghost root0: seq<nat>, ghost depth0: seq<nat>)
      returns (ghost root: seq<nat>, ghost depth: seq<nat>)
    requires Joining(parent[..], fs, root0, depth0, i, 0) && i < |fs|
    modifies parent
    ensures Joining(parent[..], fs, root, depth, i + 1, 0)
  {
    root, depth := root0, depth0;
    RowStart(fs, root, i);
    for j := i + 1 to |fs|
      invariant Joining(parent[..], fs, root, depth, i, j)
    {
      root, depth := JoinPair(parent, fs, i, j, root, depth);
    }
    RowDone(fs, root, i);
  }

  /** The double loop: afterwards two findings share a root exactly when they are linked. */
  method JoinRelated(parent: array<nat>, fs: seq<Record>) returns (ghost root: seq<nat>, ghost depth: seq<nat>)
    requires parent.Length == |fs| && parent[..] == seq(|fs|, (x: nat) => x)
    modifies parent
    ensures Forest(parent[..], root, depth) && Classes(fs, root)
  {
    root, depth := parent[..], seq(|fs|, _ => 0);
    forall x: nat | x < |fs| ensures Linked(fs, x, x) { LinkedReflexive(fs, x); }
    for i := 0 to |fs|
      invariant Joining(parent[..], fs, root, depth, i, 0)
    {
      root, depth := JoinRow(parent, fs, i, root, depth);
    }
    AllEdgesJoinedMeansClasses(fs, root);
  }

  // ---- grouping ----------------------------------------------------------------------------

  /** The findings among the first `k` that are linked to `l`, in order. */
  ghost function Members(fs: seq<Record>, l: nat, k: nat): (ms: seq<nat>)
    requires k <= |fs|
    ensures forall m: nat :: m in ms <==> m < k && Linked(fs, l, m)
  {
    if k == 0 then [] else if Linked(fs, l, k - 1) then Members(fs, l, k - 1) + [k - 1] else Members(fs, l, k - 1)
  }

  ghost predicate IsLeader(fs: seq<Record>, l: nat) {
    forall j: nat :: j < l ==> !Linked(fs, j, l)
  }

  /** The first finding of each group, in order. */
  ghost function Leaders(fs: seq<Record>, k: nat): (ls: seq<nat>)
    requires k <= |fs|
    ensures forall l: nat :: l in ls <==> l < k && IsLeader(fs, l)
  {
    if k == 0 then [] else if IsLeader(fs, k - 1) then Leaders(fs, k - 1) + [k - 1] else Leaders(fs, k - 1)
  }

  /** Every finding belongs to the group of exactly one leader. */
  lemma {:induction false} LeaderOf(fs: seq<Record>, x: nat) returns (l: nat)
    requires x < |fs|
    ensures l <= x && IsLeader(fs, l) && Linked(fs, l, x)
    ensures forall l': nat :: l' < |fs| && IsLeader(fs, l') && Linked(fs, l', x) ==> l' == l
  {
    LinkedReflexive(fs, x);
    if IsLeader(fs, x) {
      l := x;
    } else {
      var j: nat :| j < x && Linked(fs, j, x);
      l := LeaderOf(fs, j);
      LinkedTransitive(fs, l, j, x);
    }
    forall l': nat | l' < |fs| && IsLeader(fs, l') && Linked(fs, l', x) ensures l' == l {
      LinkedSymmetric(fs, l', x);
      LinkedSymmetric(fs, l, x);
      LinkedTransitive(fs, l, x, l');
      LinkedTransitive(fs, l', x, l);
    }
  }

  /** The roots met among the first `k`, and who shares one: the dictionary the code builds. */
  function RootsMet(root: seq<nat>, k: nat): seq<nat>
    requires k <= |root|
  {
    if k == 0 then []
    else if root[k - 1] in RootsMet(root, k - 1) then RootsMet(root, k - 1)
    else RootsMet(root, k - 1) + [root[k - 1]]
  }

  function Sharing(root: seq<nat>, r: nat, k: nat): seq<nat>
    requires k <= |root|
  {
    if k == 0 then [] else if root[k - 1] == r then Sharing(root, r, k - 1) + [k - 1] else Sharing(root, r, k - 1)
  }

  lemma {:induction false} RootsMetElements(root: seq<nat>, k: nat)
    requires k <= |root|
    ensures forall r: nat :: r in RootsMet(root, k) <==> r in root[..k]
    ensures Distinct(RootsMet(root, k))
  {
    if k == 0 {
    } else {
      RootsMetElements(root, k - 1);
      assert root[..k] == root[..k - 1] + [root[k - 1]];
    }
  }

  lemma {:induction false} NoSharingYet(root: seq<nat>, r: nat, k: nat)
    requires k <= |root| && r !in RootsMet(root, k)
    ensures Sharing(root, r, k) == []
  {
    if k == 0 {
    } else {
      NoSharingYet(root, r, k - 1);
    }
  }

  method GroupByRoot(parent: array<nat>, ghost root: seq<nat>, ghost depth: seq<nat>)
      returns (order: seq<nat>, groups: map<nat, seq<nat>>)
    requires Forest(parent[..], root, depth)
    modifies parent
    ensures order == RootsMet(root, |root|) && (forall r :: r in order <==> r in groups)
    ensures forall r :: r in groups ==> groups[r] == Sharing(root, r, |root|)
  {
    order, groups := [], map[];
    for k := 0 to parent.Length
      invariant Forest(parent[..], root, depth)
      invariant order == RootsMet(root, k) && (forall r :: r in order <==> r in groups)
      invariant forall r :: r in groups ==> groups[r] == Sharing(root, r, k)
    {
      var r := Find(parent, k, root, depth);
      if r !in groups {
        NoSharingYet(root, r, k);
        order := order + [r];
        groups := groups[r := []];
      }
      groups := groups[r := groups[r] + [k]];
    }
  }

  lemma {:induction false} SharersAreMembers(fs: seq<Record>, root: seq<nat>, l: nat, k: nat)
    requires Classes(fs, root) && l < |fs| && k <= |fs|
    ensures Sharing(root, root[l], k) == Members(fs, l, k)
  {
    if k == 0 {
    } else {
      SharersAreMembers(fs, root, l, k - 1);
    }
  }

  lemma LeaderMeetsNewRoot(fs: seq<Record>, root: seq<nat>, k: nat)
    requires Classes(fs, root) && k < |fs|
    ensures IsLeader(fs, k) <==> root[k] !in RootsMet(root, k)
  {
    RootsMetElements(root, k);
    if root[k] in RootsMet(root, k) {
      var j :| 0 <= j < k && root[j] == root[k];
      assert Linked(fs, j, k);
    } else {
      forall j: nat | j < k ensures !Linked(fs, j, k) {
        assert root[j] in root[..k];
      }
    }
  }

  ghost predicate Parallel(root: seq<nat>, roots: seq<nat>, leaders: seq<nat>) {
    |roots| == |leaders| && forall t :: 0 <= t < |leaders| ==> leaders[t] < |root| && roots[t] == root[leaders[t]]
  }

  lemma ParallelSnoc(root: seq<nat>, roots: seq<nat>, leaders: seq<nat>, k: nat)
    requires Parallel(root, roots, leaders) && k < |root|
    ensures Parallel(root, roots + [root[k]], leaders + [k])
  {
  }

  lemma {:induction false} RootsOfLeaders(fs: seq<Record>, root: seq<nat>, k: nat)
    requires Classes(fs, root) && k <= |fs|
    ensures Parallel(root, RootsMet(root, k), Leaders(fs, k))
  {
    if k == 0 {
    } else {
      RootsOfLeaders(fs, root, k - 1);
      LeaderMeetsNewRoot(fs, root, k - 1);
      ParallelSnoc(root, RootsMet(root, k - 1), Leaders(fs, k - 1), k - 1);
    }
  }

  // ---- one record per group ----------------------------------------------------------------

  predicate Within(fs: seq<Record>, ms: seq<nat>) {
    forall k :: 0 <= k < |ms| ==> ms[k] < |fs|
  }

  predicate InRange(fs: seq<Record>, ms: seq<nat>) {
    ms != [] && Within(fs, ms)
  }

  function Weight(r: Record): real { r.report.confidence.GetOr(0.0) }

  /** Python compares the pairs (severity rank, confidence). */
  predicate Outweighs(a: Record, b: Record) {
    var x, y := SeverityRank(a.report.severity), SeverityRank(b.report.severity);
    x > y || (x == y && Weight(a) > Weight(b))
  }

  /** The first of the heaviest members. */
  function Heaviest(fs: seq<Record>, ms: seq<nat>): (rep: nat)
    requires InRange(fs, ms)
    ensures rep in ms && rep < |fs|
    ensures forall k :: 0 <= k < |ms| ==> !Outweighs(fs[ms[k]], fs[rep])
  {
    var n := |ms| - 1;
    if n == 0 then ms[0]
    else
      var rep := Heaviest(fs, ms[..n]);
      if Outweighs(fs[ms[n]], fs[rep]) then ms[n] else rep
  }

  function AllFlags(fs: seq<Record>, ms: seq<nat>): set<string>
    requires Within(fs, ms)
  {
    if ms == [] then {} else AllFlags(fs, ms[..|ms| - 1]) + fs[ms[|ms| - 1]].flaggedBy
  }

  function TopWeight(fs: seq<Record>, ms: seq<nat>): (c: real)
    requires Within(fs, ms)
    ensures c >= 0.0 && forall k :: 0 <= k < |ms| ==> c >= Weight(fs[ms[k]])
    ensures c == 0.0 || exists k :: 0 <= k < |ms| && c == Weight(fs[ms[k]])
  {
    var n := |ms| - 1;
    if n < 0 then 0.0
    else
      var c := TopWeight(fs, ms[..n]);
      if Weight(fs[ms[n]]) > c then Weight(fs[ms[n]]) else c
  }

  function Represent(fs: seq<Record>, ms: seq<nat>): Record
    requires InRange(fs, ms)
  {
    if |ms| == 1 then fs[ms[0]]
    else
      var rep := fs[Heaviest(fs, ms)];
      var conf := TopWeight(fs, ms);
      var report := if conf != 0.0 then rep.report.(confidence := Some(conf)) else rep.report;
      rep.(report := report, flaggedBy := AllFlags(fs, ms), mergedCount := Some(|ms|))
  }

  method MergeGroup(fs: seq<Record>, ms: seq<nat>) returns (out: Record)
    requires InRange(fs, ms)
    ensures out == Represent(fs, ms)
  {
    if |ms| == 1 {
      return fs[ms[0]];
    }
    out := fs[Heaviest(fs, ms)];
    var flagged: set<string>, conf := {}, 0.0;
    for k := 0 to |ms|
      invariant flagged == AllFlags(fs, ms[..k])
      invariant conf == TopWeight(fs, ms[..k])
    {
      assert ms[..k + 1][..k] == ms[..k];
      flagged := flagged + fs[ms[k]].flaggedBy;
      conf := if Weight(fs[ms[k]]) > conf then Weight(fs[ms[k]]) else conf;
    }
    assert ms[..|ms|] == ms;
    out := out.(flaggedBy := flagged);
    if conf != 0.0 {
      out := out.(report := out.report.(confidence := Some(conf)));
    }
    out := out.(mergedCount := Some(|ms|));
  }

  ghost function GroupOf(fs: seq<Record>, t: nat): seq<nat>
    requires t < |Leaders(fs, |fs|)|
  {
    Members(fs, Leaders(fs, |fs|)[t], |fs|)
  }

  lemma GroupInRange(fs: seq<Record>, t: nat)
    requires t < |Leaders(fs, |fs|)|
    ensures InRange(fs, GroupOf(fs, t)) && Leaders(fs, |fs|)[t] in GroupOf(fs, t)
  {
    var l, ms := Leaders(fs, |fs|)[t], GroupOf(fs, t);
    assert l in Leaders(fs, |fs|);
    LinkedReflexive(fs, l);
    forall k | 0 <= k < |ms| ensures ms[k] < |fs| { assert ms[k] in ms; }
  }

  /** What merging computes: one record per class of linked findings, in order of first member. */
  ghost function Merged(fs: seq<Record>): (r: seq<Record>)
    ensures |r| == |Leaders(fs, |fs|)|
    ensures forall t :: 0 <= t < |r| ==> InRange(fs, GroupOf(fs, t)) && r[t] == Represent(fs, GroupOf(fs, t))
  {
    forall t: nat | t < |Leaders(fs, |fs|)| ensures InRange(fs, GroupOf(fs, t)) { GroupInRange(fs, t); }
    seq(|Leaders(fs, |fs|)|, (t: nat) requires t < |Leaders(fs, |fs|)| && InRange(fs, GroupOf(fs, t)) =>
      Represent(fs, GroupOf(fs, t)))
  }

  lemma ShortListUnchanged(fs: seq<Record>)
    requires |fs| < 2
    ensures Merged(fs) == fs
  {
    if |fs| == 1 {
      var l := LeaderOf(fs, 0);
      assert 0 in Leaders(fs, 1);
      GroupInRange(fs, 0);
      assert Leaders(fs, 1) == [0] && Leaders(fs, 0) == [];
      assert Members(fs, 0, 0) == [] && Members(fs, 0, 1) == [0];
    }
  }

  method SemanticMerge(fs: seq<Record>) returns (merged: seq<Record>)
    ensures merged == Merged(fs)
  {
    if |fs| < 2 {
      ShortListUnchanged(fs);
      return fs;
    }
    var parent := new nat[|fs|](x => x);
    assert parent[..] == seq(|fs|, (x: nat) => x);
    ghost var root, depth := JoinRelated(parent, fs);
    var order, groups := GroupByRoot(parent, root, depth);
    RootsOfLeaders(fs, root, |fs|);
    merged := [];
    for t := 0 to |order|
      invariant merged == Merged(fs)[..t]
    {
      GroupInRange(fs, t);
      SharersAreMembers(fs, root, Leaders(fs, |fs|)[t], |fs|);
      var out := MergeGroup(fs, groups[order[t]]);
      PrefixSnoc(Merged(fs), t + 1);
      merged := merged + [out];
    }
  }
}
