/** The activation gate: leaves fire directly on the diff, then escalation spreads from activated
    leaves until nothing changes. */
module Activation {
  import opened Util
  import opened Leaves
  import Sorting
  import Glob

  datatype Signal = FileGlobs | KeywordMatches | StructuralSignals | EscalationFrom

  predicate AnyGlobMatches(globs: Option<seq<string>>, changedPaths: seq<string>) {
    globs.Some? && exists g, p :: g in globs.value && p in changedPaths && g != [] && Glob.Minimatch(p, g)
  }

  /** The direct signals of a leaf, in the order they are tried, which is alphabetical. */
  function Fired(leaf: Leaf, changedPaths: seq<string>): seq<Signal> {
    (if AnyGlobMatches(leaf.fileGlobs, changedPaths) then [FileGlobs] else [])
    + (if leaf.keywordHit then [KeywordMatches] else [])
    + (if leaf.structuralHit then [StructuralSignals] else [])
  }

  function SignalsOf(leaf: Leaf, fired: Leaf -> seq<Signal>): seq<Signal> {
    if fired(leaf) != [] then fired(leaf) else [EscalationFrom]
  }

  // ---- specification -----------------------------------------------------------------------

  ghost predicate Direct(leaves: seq<Leaf>, fired: Leaf -> seq<Signal>, id: string) {
    exists l :: l in leaves && l.id == id && id != "" && fired(l) != []
  }

  ghost predicate Escalates(leaves: seq<Leaf>, parent: string, id: string) {
    exists l :: l in leaves && l.id == id && id != "" && parent in l.escalationFrom
  }

  ghost predicate Link(leaves: seq<Leaf>, c: seq<string>, k: int) {
    0 <= k < |c| - 1 && Escalates(leaves, c[k], c[k + 1])
  }

  /** An escalation chain: it starts at a leaf that fires on its own. */
  ghost predicate Chain(leaves: seq<Leaf>, fired: Leaf -> seq<Signal>, c: seq<string>) {
    && c != [] && Direct(leaves, fired, c[0])
    && forall k :: 0 <= k < |c| - 1 ==> Link(leaves, c, k)
  }

  ghost predicate Reachable(leaves: seq<Leaf>, fired: Leaf -> seq<Signal>, id: string) {
    exists c :: Chain(leaves, fired, c) && c[|c| - 1] == id
  }

  predicate IdLe(a: Leaf, b: Leaf) { StringLe(a.id, b.id) }

  ghost predicate HasId(ls: seq<Leaf>, id: string) {
    exists l :: l in ls && l.id == id
  }

  /** The activated leaves: one for every reachable id, in id order, each with its signals. */
  ghost predicate IsActivation(leaves: seq<Leaf>, fired: Leaf -> seq<Signal>,
                               activated: seq<Leaf>, signals: map<string, seq<Signal>>) {
    && (forall l :: l in activated ==> l in leaves)
    && Sorting.SortedBy(IdLe, activated)
    && (forall i, j :: 0 <= i < j < |activated| ==> activated[i].id != activated[j].id)
    && (forall id :: HasId(activated, id) <==> Reachable(leaves, fired, id))
    && (forall id :: id in signals <==> HasId(activated, id))
    && (forall l :: l in activated ==> l.id in signals && signals[l.id] == SignalsOf(l, fired))
  }

  // ---- the two passes ----------------------------------------------------------------------

  /** The two dictionaries the passes fill, with the order in which ids were first inserted. */
  datatype Table = Table(leaf: map<string, Leaf>, signals: map<string, seq<Signal>>, order: seq<string>)

  ghost predicate FiledUnder(leaves: seq<Leaf>, fired: Leaf -> seq<Signal>, id: string, leaf: Leaf,
                             signals: seq<Signal>) {
    leaf in leaves && leaf.id == id && id != "" && signals == SignalsOf(leaf, fired)
  }

  ghost predicate Filed(leaves: seq<Leaf>, fired: Leaf -> seq<Signal>, t: Table) {
    && Distinct(t.order) && (forall id :: id in t.order <==> id in t.leaf)
    && t.signals.Keys == t.leaf.Keys
    && (forall id :: id in t.leaf ==> FiledUnder(leaves, fired, id, t.leaf[id], t.signals[id]))
  }

  function Put(t: Table, leaf: Leaf, signals: seq<Signal>): Table {
    Table(t.leaf[leaf.id := leaf], t.signals[leaf.id := signals],
          if leaf.id in t.leaf then t.order else t.order + [leaf.id])
  }

  lemma PutKeys(t: Table, leaf: Leaf, signals: seq<Signal>)
    ensures var t' := Put(t, leaf, signals);
      t'.leaf.Keys == t.leaf.Keys + {leaf.id} && t'.signals.Keys == t.signals.Keys + {leaf.id}
    ensures leaf.id !in t.leaf ==> |Put(t, leaf, signals).leaf| == |t.leaf| + 1
  {
    var t' := Put(t, leaf, signals);
    assert t'.leaf.Keys == t.leaf.Keys + {leaf.id};
    assert |t'.leaf| == |t'.leaf.Keys| && |t.leaf| == |t.leaf.Keys|;
  }

  lemma PutFiled(leaves: seq<Leaf>, fired: Leaf -> seq<Signal>, t: Table, leaf: Leaf, signals: seq<Signal>)
    requires Filed(leaves, fired, t) && leaf in leaves && leaf.id != ""
    requires signals == SignalsOf(leaf, fired)
    ensures Filed(leaves, fired, Put(t, leaf, signals))
    ensures Put(t, leaf, signals).leaf.Keys == t.leaf.Keys + {leaf.id}
    ensures leaf.id !in t.leaf ==> |Put(t, leaf, signals).leaf| == |t.leaf| + 1
  {
    PutKeys(t, leaf, signals);
    assert FiledUnder(leaves, fired, leaf.id, leaf, signals);
  }

  ghost predicate Triggered(l: Leaf, ids: set<string>) {
    l.id != "" && exists p :: p in l.escalationFrom && p in ids
  }

  ghost predicate Closed(leaves: seq<Leaf>, ids: set<string>) {
    forall l :: l in leaves && Triggered(l, ids) ==> l.id in ids
  }

  predicate FiresItself(leaf: Leaf, fired: Leaf -> seq<Signal>) {
    leaf.id != "" && fired(leaf) != []
  }

  /** Every leaf that fires on its own is in. */
  ghost predicate HoldsDirect(leaves: seq<Leaf>, fired: Leaf -> seq<Signal>, ids: set<string>) {
    forall l :: l in leaves && FiresItself(l, fired) ==> l.id in ids
  }

  /** A set of ids the gate may activate: the direct ones and whatever they escalate to. */
  ghost predicate Admits(leaves: seq<Leaf>, fired: Leaf -> seq<Signal>, ids: iset<string>) {
    && (forall l :: l in leaves && FiresItself(l, fired) ==> l.id in ids)
    && (forall l, p :: l in leaves && l.id != "" && p in l.escalationFrom && p in ids ==> l.id in ids)
  }

  ghost function ReachableIds(leaves: seq<Leaf>, fired: Leaf -> seq<Signal>): iset<string> {
    iset id | Reachable(leaves, fired, id)
  }

  lemma ReachFurther(leaves: seq<Leaf>, fired: Leaf -> seq<Signal>, p: string, id: string)
    requires Reachable(leaves, fired, p) && Escalates(leaves, p, id)
    ensures Reachable(leaves, fired, id)
  {
    var c :| Chain(leaves, fired, c) && c[|c| - 1] == p;
    var d := c + [id];
    forall k | 0 <= k < |d| - 1 ensures Link(leaves, d, k) {
      if k < |c| - 1 {
        assert Link(leaves, c, k);
      }
    }
    assert Chain(leaves, fired, d);
  }

  lemma ReachableAdmitted(leaves: seq<Leaf>, fired: Leaf -> seq<Signal>)
    ensures Admits(leaves, fired, ReachableIds(leaves, fired))
  {
    var ids := ReachableIds(leaves, fired);
    forall l | l in leaves && FiresItself(l, fired) ensures l.id in ids {
      assert Direct(leaves, fired, l.id);
      assert Chain(leaves, fired, [l.id]);
    }
    forall l, p | l in leaves && l.id != "" && p in l.escalationFrom && p in ids ensures l.id in ids {
      ReachFurther(leaves, fired, p, l.id);
    }
  }

  lemma {:induction false} ChainInside(leaves: seq<Leaf>, fired: Leaf -> seq<Signal>, ids: iset<string>,
                                       c: seq<string>, k: nat)
    requires Admits(leaves, fired, ids) && Chain(leaves, fired, c) && k < |c|
    ensures c[k] in ids
  {
    if k == 0 {
      var l :| l in leaves && l.id == c[0] && c[0] != "" && fired(l) != [];
      assert FiresItself(l, fired);
    } else {
      ChainInside(leaves, fired, ids, c, k - 1);
      assert Link(leaves, c, k - 1);
      var l :| l in leaves && l.id == c[k] && c[k] != "" && c[k - 1] in l.escalationFrom;
    }
  }

  lemma ReachableInside(leaves: seq<Leaf>, fired: Leaf -> seq<Signal>, ids: iset<string>)
    requires Admits(leaves, fired, ids)
    ensures ReachableIds(leaves, fired) <= ids
  {
    forall id | Reachable(leaves, fired, id) ensures id in ids {
      var c :| Chain(leaves, fired, c) && c[|c| - 1] == id;
      ChainInside(leaves, fired, ids, c, |c| - 1);
    }
  }

  /** The ids some chain of escalations reaches are the least set that holds the leaves firing on their
      own and is closed under escalation: nothing is activated without a chain, and no chain is left out. */
  lemma LeastFixedPoint(leaves: seq<Leaf>, fired: Leaf -> seq<Signal>)
    ensures Admits(leaves, fired, ReachableIds(leaves, fired))
    ensures forall ids :: Admits(leaves, fired, ids) ==> ReachableIds(leaves, fired) <= ids
  {
    ReachableAdmitted(leaves, fired);
    forall ids | Admits(leaves, fired, ids) ensures ReachableIds(leaves, fired) <= ids {
      ReachableInside(leaves, fired, ids);
    }
  }

  /** What the passes end with holds the reachable ids. */
  lemma ClosedTableReaches(leaves: seq<Leaf>, fired: Leaf -> seq<Signal>, ids: set<string>)
    requires Closed(leaves, ids) && HoldsDirect(leaves, fired, ids)
    ensures forall id :: Reachable(leaves, fired, id) ==> id in ids
  {
    var all := iset id | id in ids;
    forall l, p | l in leaves && l.id != "" && p in l.escalationFrom && p in all ensures l.id in all {
      assert Triggered(l, ids);
    }
    ReachableInside(leaves, fired, all);
    forall id | Reachable(leaves, fired, id) ensures id in ids {
      assert id in ReachableIds(leaves, fired);
    }
  }

  method DirectPass(leaves: seq<Leaf>, fired: Leaf -> seq<Signal>, ghost admitted: iset<string>) returns (t: Table)
    requires Admits(leaves, fired, admitted)
    ensures Filed(leaves, fired, t)
    ensures HoldsDirect(leaves, fired, t.leaf.Keys) && forall id :: id in t.leaf.Keys ==> id in admitted
  {
    t := Table(map[], map[], []);
    for i := 0 to |leaves|
      invariant Filed(leaves, fired, t)
      invariant forall id :: id in t.leaf.Keys ==> id in admitted
      invariant forall k :: 0 <= k < i && FiresItself(leaves[k], fired) ==> leaves[k].id in t.leaf.Keys
    {
      if FiresItself(leaves[i], fired) {
        PutFiled(leaves, fired, t, leaves[i], fired(leaves[i]));
        t := Put(t, leaves[i], fired(leaves[i]));
      }
    }
  }

  predicate TriggeredNow(leaf: Leaf, t: Table) {
    leaf.id != "" && leaf.id !in t.leaf && exists p :: p in leaf.escalationFrom && p in t.leaf
  }

  /** None of the first `i` leaves is waiting to be activated. */
  ghost predicate Quiet(leaves: seq<Leaf>, i: nat, t: Table)
    requires i <= |leaves|
  {
    forall k :: 0 <= k < i && Triggered(leaves[k], t.leaf.Keys) ==> leaves[k].id in t.leaf.Keys
  }

  lemma EscalatedWell(leaves: seq<Leaf>, fired: Leaf -> seq<Signal>, ids: set<string>, leaf: Leaf)
    requires HoldsDirect(leaves, fired, ids) && leaf in leaves && leaf.id != "" && leaf.id !in ids
    ensures SignalsOf(leaf, fired) == [EscalationFrom]
  {
    assert !FiresItself(leaf, fired);
  }

  lemma TriggeredKeys(leaf: Leaf, t: Table)
    ensures TriggeredNow(leaf, t) <==> Triggered(leaf, t.leaf.Keys) && leaf.id !in t.leaf.Keys
  {
    if Triggered(leaf, t.leaf.Keys) {
      var p :| p in leaf.escalationFrom && p in t.leaf.Keys;
      assert p in t.leaf;
    }
    if TriggeredNow(leaf, t) {
      var p :| p in leaf.escalationFrom && p in t.leaf;
      assert p in t.leaf.Keys;
    }
  }

  /** A pass from `t0` after the first `i` leaves. */
  ghost predicate MidPass(leaves: seq<Leaf>, fired: Leaf -> seq<Signal>, admitted: iset<string>, t0: Table, i: nat,
                          t: Table, changed: bool) {
    && i <= |leaves| && Filed(leaves, fired, t) && t0.leaf.Keys <= t.leaf.Keys
    && (forall id :: id in t.leaf.Keys ==> id in admitted)
    && (if changed then |t.leaf| > |t0.leaf| else t == t0 && Quiet(leaves, i, t))
  }

  lemma LeafPassed(leaves: seq<Leaf>, fired: Leaf -> seq<Signal>, admitted: iset<string>, t0: Table, i: nat, t: Table,
                   changed: bool)
    requires MidPass(leaves, fired, admitted, t0, i, t, changed) && i < |leaves| && !TriggeredNow(leaves[i], t)
    ensures MidPass(leaves, fired, admitted, t0, i + 1, t, changed)
  {
    TriggeredKeys(leaves[i], t);
  }

  lemma LeafEscalated(leaves: seq<Leaf>, fired: Leaf -> seq<Signal>, admitted: iset<string>, t0: Table, i: nat,
                      t: Table, changed: bool)
    requires MidPass(leaves, fired, admitted, t0, i, t, changed) && i < |leaves| && TriggeredNow(leaves[i], t)
    requires HoldsDirect(leaves, fired, t0.leaf.Keys) && Admits(leaves, fired, admitted)
    ensures MidPass(leaves, fired, admitted, t0, i + 1, Put(t, leaves[i], [EscalationFrom]), true)
  {
    TriggeredKeys(leaves[i], t);
    EscalatedWell(leaves, fired, t.leaf.Keys, leaves[i]);
    PutFiled(leaves, fired, t, leaves[i], [EscalationFrom]);
  }

  /** One pass over the leaves; a leaf activated earlier in the pass already counts for later ones. */
  method EscalationPass(leaves: seq<Leaf>, fired: Leaf -> seq<Signal>, ghost admitted: iset<string>, t0: Table)
    returns (t: Table, changed: bool)
    requires Filed(leaves, fired, t0) && HoldsDirect(leaves, fired, t0.leaf.Keys)
    requires Admits(leaves, fired, admitted) && forall id :: id in t0.leaf.Keys ==> id in admitted
    ensures Filed(leaves, fired, t) && HoldsDirect(leaves, fired, t.leaf.Keys)
    ensures forall id :: id in t.leaf.Keys ==> id in admitted
    ensures changed ==> |t.leaf| > |t0.leaf|
    ensures !changed ==> Closed(leaves, t.leaf.Keys)
  {
    t, changed := t0, false;
    for i := 0 to |leaves|
      invariant MidPass(leaves, fired, admitted, t0, i, t, changed)
    {
      if TriggeredNow(leaves[i], t) {
        LeafEscalated(leaves, fired, admitted, t0, i, t, changed);
        t, changed := Put(t, leaves[i], [EscalationFrom]), true;
      } else {
        LeafPassed(leaves, fired, admitted, t0, i, t, changed);
      }
    }
  }

  lemma SubsetSize<T>(a: set<T>, b: set<T>)
    requires a <= b
    ensures |a| <= |b|
  {
    assert b == a + (b - a);
  }

  lemma {:induction false} IdsBounded(leaves: seq<Leaf>)
    ensures |set l | l in leaves :: l.id| <= |leaves|
  {
    if leaves == [] {
    } else {
      IdsBounded(leaves[1..]);
      assert leaves == [leaves[0]] + leaves[1..];
      assert (set l | l in leaves :: l.id) == {leaves[0].id} + (set l | l in leaves[1..] :: l.id);
    }
  }

  lemma NoMoreIdsThanLeaves(leaves: seq<Leaf>, fired: Leaf -> seq<Signal>, t: Table)
    requires Filed(leaves, fired, t)
    ensures |t.leaf| <= |leaves|
  {
    var ids := set l | l in leaves :: l.id;
    IdsBounded(leaves);
    assert t.leaf.Keys <= ids;
    SubsetSize(t.leaf.Keys, ids);
  }

  /** Iterates to the fixed point under the cap of one more pass than there are leaves, which never
      binds: a pass that changes something activates a new id, and there are at most as many ids. */
  method EscalationPasses(leaves: seq<Leaf>, fired: Leaf -> seq<Signal>, ghost admitted: iset<string>, t0: Table)
    returns (t: Table)
    requires Filed(leaves, fired, t0) && HoldsDirect(leaves, fired, t0.leaf.Keys)
    requires Admits(leaves, fired, admitted) && forall id :: id in t0.leaf.Keys ==> id in admitted
    ensures Filed(leaves, fired, t) && HoldsDirect(leaves, fired, t.leaf.Keys)
    ensures forall id :: id in t.leaf.Keys ==> id in admitted
    ensures Closed(leaves, t.leaf.Keys)
  {
    t := t0;
    var changed, iterations, cap := true, 0, |leaves| + 1;
    while changed && iterations < cap
      invariant iterations <= cap
      invariant Filed(leaves, fired, t) && HoldsDirect(leaves, fired, t.leaf.Keys)
      invariant forall id :: id in t.leaf.Keys ==> id in admitted
      invariant changed ==> iterations <= |t.leaf|
      invariant !changed ==> Closed(leaves, t.leaf.Keys)
      decreases cap - iterations
    {
      t, changed := EscalationPass(leaves, fired, admitted, t);
      iterations := iterations + 1;
    }
    NoMoreIdsThanLeaves(leaves, fired, t);
  }

  function ValuesOf(m: map<string, Leaf>, order: seq<string>): (r: seq<Leaf>)
    requires forall id :: id in order ==> id in m
    ensures |r| == |order| && forall i :: 0 <= i < |r| ==> r[i] == m[order[i]]
  {
    if order == [] then [] else [m[order[0]]] + ValuesOf(m, order[1..])
  }

  /** The dictionary's values in insertion order, then sorted by id. */
  function Collected(m: map<string, Leaf>, order: seq<string>): seq<Leaf>
    requires forall id :: id in order ==> id in m
  {
    Sorting.Sort(IdLe, ValuesOf(m, order))
  }

  lemma IdOrder()
    ensures Sorting.TotalPreorder(IdLe)
  {
    forall a: Leaf, b: Leaf ensures IdLe(a, b) || IdLe(b, a) {
      StringLeTotal(a.id, b.id);
    }
    forall a: Leaf, b: Leaf, c: Leaf | IdLe(a, b) && IdLe(b, c) ensures IdLe(a, c) {
      StringLeTransitive(a.id, b.id, c.id);
    }
  }

  lemma ValuesElements(m: map<string, Leaf>, order: seq<string>)
    requires (forall id :: id in order <==> id in m) && forall id :: id in m ==> m[id].id == id
    ensures forall l :: l in ValuesOf(m, order) <==> l.id in m && m[l.id] == l
  {
    var vs := ValuesOf(m, order);
    forall l ensures l in vs <==> l.id in m && m[l.id] == l {
      if l.id in m && m[l.id] == l {
        var i :| 0 <= i < |order| && order[i] == l.id;
        assert vs[i] == l;
      }
    }
  }

  lemma ValuesDistinct(m: map<string, Leaf>, order: seq<string>)
    requires Distinct(order) && (forall id :: id in order <==> id in m) && forall id :: id in m ==> m[id].id == id
    ensures Distinct(ValuesOf(m, order))
  {
    var vs := ValuesOf(m, order);
    forall a, b | 0 <= a < b < |vs| ensures vs[a] != vs[b] {
      assert vs[a].id == order[a] && vs[b].id == order[b];
    }
  }

  lemma TwiceCounts<T>(s: seq<T>, i: nat, j: nat)
    requires i < j < |s| && s[i] == s[j]
    ensures multiset(s)[s[i]] >= 2
  {
    assert s == s[..i] + [s[i]] + s[i + 1..j] + [s[j]] + s[j + 1..];
  }

  lemma DistinctSorted(vs: seq<Leaf>, i: nat, j: nat)
    requires Distinct(vs) && i < j < |Sorting.Sort(IdLe, vs)|
    ensures Sorting.Sort(IdLe, vs)[i] != Sorting.Sort(IdLe, vs)[j]
  {
    var ls := Sorting.Sort(IdLe, vs);
    Sorting.SortMultiset(IdLe, vs);
    Sorting.AtMostOnce(vs, ls[i]);
    if ls[i] == ls[j] {
      TwiceCounts(ls, i, j);
      assert false;
    }
  }

  lemma SameIdSameValue(m: map<string, Leaf>, ls: seq<Leaf>, i: nat, j: nat)
    requires i < |ls| && j < |ls| && ls[i] != ls[j]
    requires forall l :: l in ls ==> l.id in m && m[l.id] == l
    ensures ls[i].id != ls[j].id
  {
    assert ls[i] in ls && ls[j] in ls;
  }

  lemma CollectedSorted(m: map<string, Leaf>, order: seq<string>)
    requires Distinct(order) && (forall id :: id in order <==> id in m) && forall id :: id in m ==> m[id].id == id
    ensures var ls := Collected(m, order);
            && Sorting.SortedBy(IdLe, ls)
            && (forall i, j :: 0 <= i < j < |ls| ==> ls[i].id != ls[j].id)
            && (forall l :: l in ls <==> l.id in m && m[l.id] == l)
  {
    var vs, ls := ValuesOf(m, order), Collected(m, order);
    IdOrder();
    Sorting.SortSorted(IdLe, vs);
    Sorting.SortElements(IdLe, vs);
    ValuesElements(m, order);
    ValuesDistinct(m, order);
    forall i, j | 0 <= i < j < |ls| ensures ls[i].id != ls[j].id {
      DistinctSorted(vs, i, j);
      SameIdSameValue(m, ls, i, j);
    }
  }

  lemma TableIsActivation(leaves: seq<Leaf>, fired: Leaf -> seq<Signal>, t: Table)
    requires Filed(leaves, fired, t)
    requires forall id :: id in t.leaf <==> Reachable(leaves, fired, id)
    ensures IsActivation(leaves, fired, Collected(t.leaf, t.order), t.signals)
  {
    CollectedSorted(t.leaf, t.order);
    var ls := Collected(t.leaf, t.order);
    forall id ensures HasId(ls, id) <==> id in t.leaf {
      if id in t.leaf {
        assert t.leaf[id] in ls;
      }
    }
  }

  /** The gate over any way of firing directly. */
  method Activate(leaves: seq<Leaf>, fired: Leaf -> seq<Signal>)
    returns (activated: seq<Leaf>, signals: map<string, seq<Signal>>)
    ensures IsActivation(leaves, fired, activated, signals)
  {
    ghost var reachable := ReachableIds(leaves, fired);
    ReachableAdmitted(leaves, fired);
    var t := DirectPass(leaves, fired, reachable);
    t := EscalationPasses(leaves, fired, reachable, t);
    activated, signals := Collected(t.leaf, t.order), t.signals;
    ClosedTableReaches(leaves, fired, t.leaf.Keys);
    TableIsActivation(leaves, fired, t);
  }

  method EvaluateActivation(leaves: seq<Leaf>, changedPaths: seq<string>)
    returns (activated: seq<Leaf>, signals: map<string, seq<Signal>>)
    ensures IsActivation(leaves, l => Fired(l, changedPaths), activated, signals)
  {
    activated, signals := Activate(leaves, l => Fired(l, changedPaths));
  }

  // ---- order independence ------------------------------------------------------------------

  lemma SameActivation(leaves: seq<Leaf>, leaves': seq<Leaf>, fired: Leaf -> seq<Signal>,
                       activated: seq<Leaf>, signals: map<string, seq<Signal>>)
    requires forall l :: l in leaves <==> l in leaves'
    requires forall id :: Reachable(leaves, fired, id) <==> Reachable(leaves', fired, id)
    requires IsActivation(leaves', fired, activated, signals)
    ensures IsActivation(leaves, fired, activated, signals)
  {
    forall id ensures HasId(activated, id) <==> Reachable(leaves, fired, id) {
    }
  }

  lemma SameSignals(leaves: seq<Leaf>, fired: Leaf -> seq<Signal>, activated: seq<Leaf>,
                    signals: map<string, seq<Signal>>, signals': map<string, seq<Signal>>)
    requires IsActivation(leaves, fired, activated, signals) && IsActivation(leaves, fired, activated, signals')
    ensures signals == signals'
  {
    forall id | id in signals ensures id in signals' && signals[id] == signals'[id] {
      var l :| l in activated && l.id == id;
    }
    forall id ensures id in signals' <==> id in signals {
      assert id in signals <==> HasId(activated, id);
    }
  }

  lemma SameReach(leaves: seq<Leaf>, leaves': seq<Leaf>, fired: Leaf -> seq<Signal>, id: string)
    requires forall l :: l in leaves <==> l in leaves'
    ensures Reachable(leaves, fired, id) ==> Reachable(leaves', fired, id)
  {
    if Reachable(leaves, fired, id) {
      var c :| Chain(leaves, fired, c) && c[|c| - 1] == id;
      forall k | 0 <= k < |c| - 1 ensures Link(leaves', c, k) {
        assert Link(leaves, c, k);
      }
      assert Chain(leaves', fired, c);
    }
  }

  lemma OneLeafPerId(leaves: seq<Leaf>, l: Leaf, l': Leaf)
    requires forall i, j :: 0 <= i < j < |leaves| ==> leaves[i].id != leaves[j].id
    requires l in leaves && l' in leaves && l.id == l'.id
    ensures l == l'
  {
    var i :| 0 <= i < |leaves| && leaves[i] == l;
    var j :| 0 <= j < |leaves| && leaves[j] == l';
  }

  lemma SameLeaves(leaves: seq<Leaf>, leaves': seq<Leaf>, fired: Leaf -> seq<Signal>,
                   activated: seq<Leaf>, signals: map<string, seq<Signal>>,
                   activated': seq<Leaf>, signals': map<string, seq<Signal>>)
    requires forall l :: l in leaves <==> l in leaves'
    requires forall i, j :: 0 <= i < j < |leaves| ==> leaves[i].id != leaves[j].id
    requires forall id :: Reachable(leaves, fired, id) <==> Reachable(leaves', fired, id)
    requires IsActivation(leaves, fired, activated, signals)
    requires IsActivation(leaves', fired, activated', signals')
    ensures forall l :: l in activated ==> l in activated'
  {
    forall l | l in activated ensures l in activated' {
      assert HasId(activated, l.id);
      assert HasId(activated', l.id);
      var l' :| l' in activated' && l'.id == l.id;
      OneLeafPerId(leaves, l, l');
    }
  }

  /** With distinct ids the outcome depends on which leaves there are, not on their order. */
  lemma OrderIrrelevant(leaves: seq<Leaf>, leaves': seq<Leaf>, fired: Leaf -> seq<Signal>,
                        activated: seq<Leaf>, signals: map<string, seq<Signal>>,
                        activated': seq<Leaf>, signals': map<string, seq<Signal>>)
    requires multiset(leaves) == multiset(leaves')
    requires forall i, j :: 0 <= i < j < |leaves| ==> leaves[i].id != leaves[j].id
    requires IsActivation(leaves, fired, activated, signals)
    requires IsActivation(leaves', fired, activated', signals')
    ensures activated == activated' && signals == signals'
  {
    forall l ensures l in leaves <==> l in leaves' {
      assert l in leaves <==> l in multiset(leaves);
      assert l in leaves' <==> l in multiset(leaves');
    }
    forall id ensures Reachable(leaves, fired, id) <==> Reachable(leaves', fired, id) {
      SameReach(leaves, leaves', fired, id);
      SameReach(leaves', leaves, fired, id);
    }
    SameActivation(leaves, leaves', fired, activated', signals');
    SameLeaves(leaves, leaves, fired, activated, signals, activated', signals');
    SameLeaves(leaves, leaves, fired, activated', signals', activated, signals);
    Sorting.SameElementsSameMultiset(activated, activated');
    forall x, y | x in activated && y in activated && IdLe(x, y) && IdLe(y, x) ensures x == y {
      StringLeAntisymmetric(x.id, y.id);
    }
    Sorting.SortedUnique(IdLe, activated, activated');
    SameSignals(leaves, fired, activated, signals, signals');
  }
}
