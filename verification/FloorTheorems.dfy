/** What the coverage floor looks for in a leaf, and what it hands on of it. */
module FloorTheorems {
  import opened Util
  import opened Leaves
  import opened CoverageFloor
  import Activation

  predicate FoundAt(part: string, s: string, i: nat) {
    i + |part| <= |s| && s[i..i + |part|] == part
  }

  /** `part` stands somewhere in `s`. */
  ghost predicate Inside(part: string, s: string) { exists i: nat :: FoundAt(part, s, i) }

  lemma {:induction false} ContainsIff(s: string, part: string)
    ensures Contains(s, part) <==> Inside(part, s)
  {
    if StartsWith(s, part) {
      assert FoundAt(part, s, 0);
    } else if s == [] {
    } else {
      ContainsIff(s[1..], part);
      if i: nat :| FoundAt(part, s[1..], i) {
        assert s[i + 1..i + 1 + |part|] == s[1..][i..i + |part|];
        assert FoundAt(part, s, i + 1);
      }
      if i: nat :| FoundAt(part, s, i) {
        assert i > 0;
        assert s[1..][i - 1..i - 1 + |part|] == s[i..i + |part|];
        assert FoundAt(part, s[1..], i - 1);
      }
    }
  }

  predicate HasFloorPrefix(id: string) {
    || StartsWith(id, "lang-") || StartsWith(id, "fw-") || StartsWith(id, "sec-") || StartsWith(id, "footgun-")
    || StartsWith(id, "orm-") || StartsWith(id, "reliability-") || StartsWith(id, "data-")
  }

  ghost predicate NamesSome(id: string, languages: set<string>) {
    exists l :: l in languages && l != "" && Inside(l, id)
  }

  lemma PrefixIff(id: string)
    ensures (exists p :: p in FLOOR_PREFIXES && StartsWith(id, p)) <==> HasFloorPrefix(id)
  {
    assert FLOOR_PREFIXES[0] == "lang-" && FLOOR_PREFIXES[1] == "fw-" && FLOOR_PREFIXES[2] == "sec-";
    assert FLOOR_PREFIXES[3] == "footgun-" && FLOOR_PREFIXES[4] == "orm-" && FLOOR_PREFIXES[5] == "reliability-";
    assert FLOOR_PREFIXES[6] == "data-";
  }

  /** A candidate's score: three for a security or correctness dimension, two for one of seven id prefixes,
      one for naming a language of the project, and one for every activation match. */
  lemma ScoreIs(c: Candidate, languages: set<string>)
    ensures Score(c, languages) ==
      (if "security" in c.leaf.dimensions || "correctness" in c.leaf.dimensions then 3 else 0)
      + (if HasFloorPrefix(c.leaf.id) then 2 else 0)
      + (if NamesSome(c.leaf.id, languages) then 1 else 0)
      + c.matches
  {
    var named := c.leaf.dimensions * {"security", "correctness"};
    assert named != {} <==> "security" in named || "correctness" in named;
    forall l | l in languages ensures Contains(c.leaf.id, l) <==> Inside(l, c.leaf.id) {
      ContainsIff(c.leaf.id, l);
    }
    PrefixIff(c.leaf.id);
  }

  /** The cap: the review's own if it has one, else the tier's, else 20; zero counts as none. */
  lemma CapIs(cap: Option<int>, tierCap: Option<int>)
    ensures cap !in {None, Some(0)} ==> Some(CapOf(cap, tierCap)) == cap
    ensures cap in {None, Some(0)} && tierCap !in {None, Some(0)} ==> Some(CapOf(cap, tierCap)) == tierCap
    ensures cap in {None, Some(0)} && tierCap in {None, Some(0)} ==> CapOf(cap, tierCap) == 20
  {
  }

  /** Every leaf the floor picks has an id and a path, is one of the activated ones, keeps its dimensions,
      and carries no activation signal on. */
  lemma PicksAreBare(activated: seq<Candidate>, cap: int, languages: set<string>, l: Leaf) returns (c: Candidate)
    requires l in FloorPicks(activated, cap, languages)
    ensures c in activated && l.id == c.leaf.id != "" && l.path == c.leaf.path != ""
    ensures l.dimensions == c.leaf.dimensions && l.wikiGlobs == c.leaf.wikiGlobs && l.escalationFrom == []
    ensures forall changedPaths :: Activation.Fired(l, changedPaths) == []
  {
    var ks := FloorPicksTheBest(activated, cap, languages);
    var r, top := Ranking(activated, languages), Take(Ranking(activated, languages), cap);
    var i :| 0 <= i < |FloorPicks(activated, cap, languages)| && FloorPicks(activated, cap, languages)[i] == l;
    assert ks[i] in ks;
    c := top[ks[i]];
    assert c in r;
    assert c in multiset(r);
  }
}
