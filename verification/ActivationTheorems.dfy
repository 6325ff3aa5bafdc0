/** What activation means for one leaf: which signals fire it, and which leaves wake which. */
module ActivationTheorems {
  import opened Util
  import opened Leaves
  import opened Activation
  import Glob

  /** Some non-empty glob of the leaf matches some changed path. */
  ghost predicate GlobHit(leaf: Leaf, changedPaths: seq<string>) {
    leaf.fileGlobs.Some? &&
    exists g, p :: g in leaf.fileGlobs.value && g != "" && p in changedPaths && Glob.Minimatch(p, g)
  }

  /** It fires by itself: by a glob, a keyword or a structural signal. */
  ghost predicate Fires(leaf: Leaf, changedPaths: seq<string>) {
    GlobHit(leaf, changedPaths) || leaf.keywordHit || leaf.structuralHit
  }

  lemma FiredTells(leaf: Leaf, changedPaths: seq<string>)
    ensures var s := Fired(leaf, changedPaths);
      && (FileGlobs in s <==> GlobHit(leaf, changedPaths))
      && (KeywordMatches in s <==> leaf.keywordHit)
      && (StructuralSignals in s <==> leaf.structuralHit)
      && EscalationFrom !in s
      && (s == [] <==> !Fires(leaf, changedPaths))
  {
    var s := Fired(leaf, changedPaths);
    if s != [] { assert s[0] in s; }
  }

  /** An activated leaf carries exactly the signals that hold of it; if none does, it was woken by an
      escalation alone, and says so. */
  lemma SignalsTell(leaves: seq<Leaf>, changedPaths: seq<string>, activated: seq<Leaf>,
                    signals: map<string, seq<Signal>>, l: Leaf)
    requires IsActivation(leaves, x => Fired(x, changedPaths), activated, signals) && l in activated
    ensures l.id in signals
    ensures FileGlobs in signals[l.id] <==> GlobHit(l, changedPaths)
    ensures KeywordMatches in signals[l.id] <==> l.keywordHit
    ensures StructuralSignals in signals[l.id] <==> l.structuralHit
    ensures EscalationFrom in signals[l.id] <==> !Fires(l, changedPaths)
  {
    FiredTells(l, changedPaths);
  }

  /** A leaf with an id that fires by itself, or that names an activated leaf to escalate from, brings its
      id in. */
  lemma WhatWakesALeaf(leaves: seq<Leaf>, changedPaths: seq<string>, activated: seq<Leaf>,
                       signals: map<string, seq<Signal>>, l: Leaf)
    requires IsActivation(leaves, x => Fired(x, changedPaths), activated, signals)
    requires l in leaves && l.id != ""
    ensures Fires(l, changedPaths) ==> l.id in signals
    ensures (exists p :: p in l.escalationFrom && p in signals) ==> l.id in signals
  {
    var fired := (x: Leaf) => Fired(x, changedPaths);
    FiredTells(l, changedPaths);
    ReachableAdmitted(leaves, fired);
    if Fires(l, changedPaths) {
      assert FiresItself(l, fired);
      assert l.id in ReachableIds(leaves, fired);
    }
    if p :| p in l.escalationFrom && p in signals {
      assert p in ReachableIds(leaves, fired);
      assert l.id in ReachableIds(leaves, fired);
    }
  }

  /** A chain of escalations has a last link, or none. */
  lemma LastLink(leaves: seq<Leaf>, fired: Leaf -> seq<Signal>, id: string) returns (parent: Option<string>)
    requires Reachable(leaves, fired, id)
    ensures parent.None? ==> Direct(leaves, fired, id)
    ensures parent.Some? ==> Escalates(leaves, parent.value, id) && Reachable(leaves, fired, parent.value)
  {
    var c :| Chain(leaves, fired, c) && c[|c| - 1] == id;
    if |c| == 1 {
      return None;
    }
    var n := |c| - 2;
    assert Link(leaves, c, n);
    var before := c[..n + 1];
    forall k | 0 <= k < |before| - 1 ensures Link(leaves, before, k) {
      assert Link(leaves, c, k);
    }
    assert Chain(leaves, fired, before);
    parent := Some(c[n]);
  }

  /** And nothing else does: an activated id belongs to a leaf that fires by itself, or to one that names
      another activated id. */
  lemma WokenBySomething(leaves: seq<Leaf>, changedPaths: seq<string>, activated: seq<Leaf>,
                         signals: map<string, seq<Signal>>, id: string) returns (l: Leaf)
    requires IsActivation(leaves, x => Fired(x, changedPaths), activated, signals) && id in signals
    ensures l in leaves && l.id == id && id != ""
    ensures Fires(l, changedPaths) || exists p :: p in l.escalationFrom && p in signals
  {
    var fired := (x: Leaf) => Fired(x, changedPaths);
    assert Reachable(leaves, fired, id);
    var parent := LastLink(leaves, fired, id);
    if parent.None? {
      l :| l in leaves && l.id == id && id != "" && fired(l) != [];
      FiredTells(l, changedPaths);
    } else {
      l :| l in leaves && l.id == id && id != "" && parent.value in l.escalationFrom;
      assert parent.value in signals;
    }
  }
}
