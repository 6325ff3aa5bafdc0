/** The floor under an empty trim: when the trimming worker picks nothing although leaves were
    activated, the best-scoring activated leaves are picked deterministically. */
module CoverageFloor {
  import opened Util
  import opened Leaves
  import opened Sorting

  datatype Candidate = Candidate(leaf: Leaf, matches: nat)

  const FLOOR_PREFIXES := ["lang-", "fw-", "sec-", "footgun-", "orm-", "reliability-", "data-"]
  const DEFAULT_CAP := 20

  predicate Contains(s: string, part: string) {
    StartsWith(s, part) || (s != [] && Contains(s[1..], part))
  }

  predicate NamesLanguage(id: string, languages: set<string>) {
    exists l :: l in languages && l != "" && Contains(id, l)
  }

  function Score(c: Candidate, languages: set<string>): nat {
    (if c.leaf.dimensions * {"security", "correctness"} != {} then 3 else 0)
    + (if exists p :: p in FLOOR_PREFIXES && StartsWith(c.leaf.id, p) then 2 else 0)
    + (if NamesLanguage(c.leaf.id, languages) then 1 else 0)
    + c.matches
  }

  /** A cap of zero counts as absent. */
  function CapOf(cap: Option<int>, tierCap: Option<int>): int {
    if cap.Some? && cap.value != 0 then cap.value
    else if tierCap.Some? && tierCap.value != 0 then tierCap.value
    else DEFAULT_CAP
  }

  /** Python's `[:n]`: a negative bound counts from the end. */
  function Take<T>(s: seq<T>, n: int): seq<T> {
    var k := if n >= 0 then Min(n, |s|) else Max(0, |s| + n);
    s[..k]
  }

  function Ranking(activated: seq<Candidate>, languages: set<string>): seq<Candidate> {
    Sort((a: Candidate, b: Candidate) => Score(a, languages) >= Score(b, languages), activated)
  }

  /** What a floor pick keeps of its leaf. */
  function Bare(l: Leaf): Leaf {
    l.(fileGlobs := None, keywordHit := false, structuralHit := false, escalationFrom := [])
  }

  predicate Usable(c: Candidate) { c.leaf.id != "" && c.leaf.path != "" }

  function BareUsable(cs: seq<Candidate>): seq<Leaf> {
    var n := |cs| - 1;
    if n < 0 then [] else if Usable(cs[n]) then BareUsable(cs[..n]) + [Bare(cs[n].leaf)] else BareUsable(cs[..n])
  }

  function FloorPicks(activated: seq<Candidate>, cap: int, languages: set<string>): seq<Leaf> {
    BareUsable(Take(Ranking(activated, languages), cap))
  }

  /** Applies the floor to what a worker state picked. */
  method ApplyFloor(isTrim: bool, picked: seq<Leaf>, activated: seq<Candidate>, candidates: seq<Candidate>,
                    cap: Option<int>, tierCap: Option<int>, languages: set<string>)
      returns (result: seq<Leaf>, used: bool)
    ensures var source := if activated != [] then activated else candidates;
      && (used <==> isTrim && picked == [] && FloorPicks(source, CapOf(cap, tierCap), languages) != [])
      && result == if used then FloorPicks(source, CapOf(cap, tierCap), languages) else picked
  {
    result, used := picked, false;
    if !isTrim || picked != [] {
      return;
    }
    var source := if activated != [] then activated else candidates;
    var top := Take(Ranking(source, languages), CapOf(cap, tierCap));
    var floor: seq<Leaf> := [];
    for i := 0 to |top|
      invariant floor == BareUsable(top[..i])
    {
      assert top[..i + 1][..i] == top[..i];
      if Usable(top[i]) {
        floor := floor + [Bare(top[i].leaf)];
      }
    }
    assert top[..|top|] == top;
    if floor != [] {
      result, used := floor, true;
    }
  }

  lemma RankingSorted(activated: seq<Candidate>, languages: set<string>)
    ensures var r := Ranking(activated, languages);
      && |r| == |activated| && multiset(r) == multiset(activated)
      && forall i, j :: 0 <= i < j < |r| ==> Score(r[i], languages) >= Score(r[j], languages)
  {
    var ge := (a: Candidate, b: Candidate) => Score(a, languages) >= Score(b, languages);
    SortMultiset(ge, activated);
    SortSorted(ge, activated);
  }

  /** The places of the usable candidates. */
  function Places(cs: seq<Candidate>): seq<nat> {
    var n := |cs| - 1;
    if n < 0 then [] else if Usable(cs[n]) then Places(cs[..n]) + [n] else Places(cs[..n])
  }

  lemma {:induction false} PlaceUsable(cs: seq<Candidate>, i: nat)
    ensures |BareUsable(cs)| == |Places(cs)|
    ensures i < |Places(cs)| ==> var k := Places(cs)[i];
      k < |cs| && Usable(cs[k]) && BareUsable(cs)[i] == Bare(cs[k].leaf)
  {
    if cs == [] {
    } else {
      PlaceUsable(cs[..|cs| - 1], i);
    }
  }

  lemma {:induction false} UsablePlaced(cs: seq<Candidate>, k: nat)
    requires k < |cs| && Usable(cs[k])
    ensures k in Places(cs)
  {
    if k == |cs| - 1 {
    } else {
      UsablePlaced(cs[..|cs| - 1], k);
    }
  }

  lemma {:induction false} PlacesAscend(cs: seq<Candidate>, i: nat, j: nat)
    requires i < j < |Places(cs)|
    ensures Places(cs)[i] < Places(cs)[j]
  {
    var init := cs[..|cs| - 1];
    if j < |Places(init)| {
      PlacesAscend(init, i, j);
    } else {
      PlaceUsable(init, i);
    }
  }

  /** The usable candidates' places, ascending. */
  ghost predicate UsablePlaces(cs: seq<Candidate>, ks: seq<nat>) {
    && (forall k: nat :: k in ks <==> k < |cs| && Usable(cs[k]))
    && (forall i, j :: 0 <= i < j < |ks| ==> ks[i] < ks[j])
  }

  ghost predicate PicksFrom(picks: seq<Leaf>, cs: seq<Candidate>, ks: seq<nat>) {
    |picks| == |ks| && forall i :: 0 <= i < |picks| ==> ks[i] < |cs| && picks[i] == Bare(cs[ks[i]].leaf)
  }

  lemma PlacesAreUsable(cs: seq<Candidate>)
    ensures UsablePlaces(cs, Places(cs))
  {
    forall k: nat ensures k in Places(cs) <==> k < |cs| && Usable(cs[k]) {
      if k in Places(cs) {
        var i: nat :| i < |Places(cs)| && Places(cs)[i] == k;
        PlaceUsable(cs, i);
      }
      if k < |cs| && Usable(cs[k]) {
        UsablePlaced(cs, k);
      }
    }
    forall i, j | 0 <= i < j < |Places(cs)| ensures Places(cs)[i] < Places(cs)[j] {
      PlacesAscend(cs, i, j);
    }
  }

  lemma PicksFromPlaces(cs: seq<Candidate>)
    ensures PicksFrom(BareUsable(cs), cs, Places(cs))
  {
    PlaceUsable(cs, 0);
    forall i | 0 <= i < |Places(cs)| ensures Places(cs)[i] < |cs| && BareUsable(cs)[i] == Bare(cs[Places(cs)[i]].leaf) {
      PlaceUsable(cs, i);
    }
  }

  lemma UsableInOrder(cs: seq<Candidate>) returns (ks: seq<nat>)
    ensures UsablePlaces(cs, ks) && PicksFrom(BareUsable(cs), cs, ks)
  {
    ks := Places(cs);
    PlacesAreUsable(cs);
    PicksFromPlaces(cs);
  }

  /** The floor picks exactly the leaves with an id and a path among the best the cap admits, best first,
      and no candidate beyond the cap scores higher than one within it. */
  lemma FloorPicksTheBest(activated: seq<Candidate>, cap: int, languages: set<string>) returns (ks: seq<nat>)
    ensures var r, top := Ranking(activated, languages), Take(Ranking(activated, languages), cap);
      && multiset(r) == multiset(activated)
      && |top| == (if cap >= 0 then Min(cap, |activated|) else Max(0, |activated| + cap))
      && UsablePlaces(top, ks) && PicksFrom(FloorPicks(activated, cap, languages), top, ks)
      && (forall i, j :: 0 <= i < |top| && i < j < |r| ==> Score(top[i], languages) >= Score(r[j], languages))
  {
    RankingSorted(activated, languages);
    ks := UsableInOrder(Take(Ranking(activated, languages), cap));
  }

  /** So an empty trim stays empty only if none of the best candidates carries an id and a path. */
  lemma NeverSilentlyEmpty(activated: seq<Candidate>, cap: int, languages: set<string>)
    ensures FloorPicks(activated, cap, languages) == [] <==>
      forall c :: c in Take(Ranking(activated, languages), cap) ==> !Usable(c)
  {
    var top := Take(Ranking(activated, languages), cap);
    var ks := UsableInOrder(top);
    if c :| c in top && Usable(c) {
      var k: nat :| k < |top| && top[k] == c;
      assert k in ks;
    }
    if ks != [] {
      assert ks[0] in ks;
      assert top[ks[0]] in top;
    }
  }
}
