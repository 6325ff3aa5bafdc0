/** The eight release gates and the verdict. */
module Readiness {
  import opened Util
  import opened Findings
  import opened Sorting
  import opened Leaves

  // ---- tags --------------------------------------------------------------------------------

  function SplitHyphens(s: string): (segs: seq<string>)
    ensures segs != []
  {
    if s == [] then [""]
    else
      var rest := SplitHyphens(s[1..]);
      if s[0] == '-' then [""] + rest else [[s[0]] + rest[0]] + rest[1..]
  }

  function JoinHyphens(segs: seq<string>): string
    requires segs != []
  {
    if |segs| == 1 then segs[0] else segs[0] + "-" + JoinHyphens(segs[1..])
  }

  /** `n` adjacent segments, joined again. */
  function Gram(segs: seq<string>, i: nat, n: nat): string
    requires n > 0 && i + n <= |segs|
  {
    JoinHyphens(segs[i..i + n])
  }

  const LONGEST_GRAM := 4

  /** The id itself and every run of one to four of its segments. */
  ghost function Tags(id: string): set<string> {
    if id == "" then {}
    else
      var segs := SplitHyphens(id);
      {id} + set i, n | 0 <= i < |segs| && 1 <= n <= LONGEST_GRAM && i + n <= |segs| :: Gram(segs, i, n)
  }

  ghost function Grams(segs: seq<string>, i: nat, most: nat): set<string>
    requires i < |segs|
  {
    set n | 1 <= n <= most && i + n <= |segs| :: Gram(segs, i, n)
  }

  ghost function GramsBefore(segs: seq<string>, k: nat): set<string>
    requires k <= |segs|
  {
    set i, n | 0 <= i < k && 1 <= n <= LONGEST_GRAM && i + n <= |segs| :: Gram(segs, i, n)
  }

  lemma GramsStep(segs: seq<string>, i: nat)
    requires i < |segs|
    ensures GramsBefore(segs, i + 1) == GramsBefore(segs, i) + Grams(segs, i, LONGEST_GRAM)
  {
  }

  lemma GramsGrow(segs: seq<string>, i: nat, n: nat)
    requires i + n <= |segs| && 1 <= n
    ensures i < |segs| && Grams(segs, i, n) == Grams(segs, i, n - 1) + {Gram(segs, i, n)}
  {
  }

  method GramsAt(segs: seq<string>, i: nat) returns (grams: set<string>)
    requires i < |segs|
    ensures grams == Grams(segs, i, LONGEST_GRAM)
  {
    grams := {segs[i]};
    assert Gram(segs, i, 1) == segs[i];
    var n := 2;
    while n < 5 && i + n <= |segs|
      invariant 2 <= n <= 5
      invariant n > 2 ==> i + n - 1 <= |segs|
      invariant grams == Grams(segs, i, n - 1)
    {
      GramsGrow(segs, i, n);
      grams := grams + {Gram(segs, i, n)};
      n := n + 1;
    }
  }

  method TagsLike(id: string) returns (tags: set<string>)
    ensures tags == Tags(id)
  {
    if id == "" {
      return {};
    }
    tags := {id};
    var segs := SplitHyphens(id);
    for i := 0 to |segs|
      invariant tags == {id} + GramsBefore(segs, i)
    {
      var grams := GramsAt(segs, i);
      GramsStep(segs, i);
      tags := tags + grams;
    }
  }

  // ---- gates -------------------------------------------------------------------------------

  const CLEAN_CODE := {"solid", "dry", "kiss", "yagni", "clean-code", "naming", "complexity"}
  const RESILIENCE :=
    {"error-handling", "resilience", "fault-tolerance", "retry", "circuit-breaker", "concurrency", "async"}
  const CODE_QUALITY :=
    {"type-safety", "idioms", "dead-code", "language-quality", "initialization", "startup", "shutdown"}
  const ARCHITECTURE := {"api-design", "module-boundaries", "dependencies", "layering", "ddd", "microservices"}
  const SAFETY := {"hooks-safety", "supply-chain", "dependencies-security"}
  const DOMAIN := {"cli", "api", "observability"}

  const GATE_COUNT := 8

  predicate GateMatches(number: int, leaf: Leaf, tags: set<string>) {
    var dims := leaf.dimensions;
    match number
    case 1 => "readability" in dims || tags * CLEAN_CODE != {}
    case 2 => "correctness" in dims && tags * RESILIENCE != {}
    case 3 => "correctness" in dims || tags * CODE_QUALITY != {}
    case 4 => "tests" in dims
    case 5 => dims * {"architecture", "performance"} != {} || tags * ARCHITECTURE != {}
    case 6 => "security" in dims || tags * SAFETY != {}
    case 7 => "documentation" in dims
    case 8 => tags * DOMAIN != {} || (exists t :: t in tags && StartsWith(t, "domain-"))
              || StartsWith(leaf.id, "domain-") || StartsWith(leaf.id, "obs-")
              || StartsWith(leaf.id, "cli-") || StartsWith(leaf.id, "api-")
    case _ => false
  }

  ghost predicate Gated(number: int, leaf: Leaf) { GateMatches(number, leaf, Tags(leaf.id)) }

  datatype GateStatus = NotApplicable | Pass | Fail

  datatype Gate = Gate(number: int, status: GateStatus, contributing: seq<string>, blockers: nat)

  datatype Verdict = Go | Conditional | NoGo

  ghost function Contributors(picked: seq<Leaf>, number: int): seq<string> {
    var n := |picked| - 1;
    if n < 0 then []
    else if Gated(number, picked[n]) then Contributors(picked[..n], number) + [picked[n].id]
    else Contributors(picked[..n], number)
  }

  function CountIn(ids: seq<string>, s: set<string>): nat {
    var n := |ids| - 1;
    if n < 0 then 0 else CountIn(ids[..n], s) + if ids[n] in s then 1 else 0
  }

  /** A gate nobody contributes to does not apply; otherwise it fails on any blocker. */
  ghost predicate IsDecided(g: Gate, number: int, picked: seq<Leaf>, blocking: set<string>) {
    var ids := Contributors(picked, number);
    && g.blockers == CountIn(ids, blocking)
    && g.status == if ids == [] then NotApplicable else if g.blockers == 0 then Pass else Fail
  }

  ghost predicate IsGate(g: Gate, number: int, picked: seq<Leaf>, blocking: set<string>) {
    && g.number == number
    && g.contributing == Sort(StringLe, Contributors(picked, number))
    && IsDecided(g, number, picked, blocking)
  }

  lemma BlockingSnoc(init: seq<Record>, r: Record)
    ensures BlockingLeaves(init + [r]) == BlockingLeaves(init) + if Blocking(r.report.severity) then r.flaggedBy else {}
  {
    assert r in init + [r] && forall x :: x in init + [r] <==> x in init || x == r;
  }

  method CollectBlocking(findings: seq<Record>) returns (blocking: set<string>)
    ensures blocking == BlockingLeaves(findings)
  {
    blocking := {};
    for i := 0 to |findings|
      invariant blocking == BlockingLeaves(findings[..i])
    {
      BlockingSnoc(findings[..i], findings[i]);
      assert findings[..i + 1] == findings[..i] + [findings[i]];
      if Blocking(findings[i].report.severity) {
        blocking := blocking + findings[i].flaggedBy;
      }
    }
    assert findings[..|findings|] == findings;
  }

  method EvaluateGate(number: int, picked: seq<Leaf>, blocking: set<string>) returns (g: Gate)
    ensures IsGate(g, number, picked, blocking)
  {
    var ids := [];
    for i := 0 to |picked|
      invariant ids == Contributors(picked[..i], number)
    {
      assert picked[..i + 1][..i] == picked[..i];
      var tags := TagsLike(picked[i].id);
      if GateMatches(number, picked[i], tags) {
        ids := ids + [picked[i].id];
      }
    }
    assert picked[..|picked|] == picked;
    if ids == [] {
      return Gate(number, NotApplicable, [], 0);
    }
    var blockers := CountIn(ids, blocking);
    g := Gate(number, if blockers == 0 then Pass else Fail, Sort(StringLe, ids), blockers);
  }

  /** Some picked leaf of the gate stands behind a blocking finding. */
  ghost predicate GateBlocked(number: int, picked: seq<Leaf>, blocking: set<string>) {
    exists leaf :: leaf in picked && Gated(number, leaf) && leaf.id in blocking
  }

  ghost predicate SomeGateBlocked(picked: seq<Leaf>, blocking: set<string>) {
    exists number :: 1 <= number <= GATE_COUNT && GateBlocked(number, picked, blocking)
  }

  ghost function VerdictOf(findings: seq<Record>, picked: seq<Leaf>, coverageViolated: bool): Verdict {
    if coverageViolated || SomeGateBlocked(picked, BlockingLeaves(findings)) then NoGo else Go
  }

  lemma CountSnoc(ids: seq<string>, id: string, s: set<string>)
    ensures CountIn(ids + [id], s) == CountIn(ids, s) + if id in s then 1 else 0
  {
    assert (ids + [id])[..|ids|] == ids;
  }

  lemma BlockedSnoc(number: int, init: seq<Leaf>, last: Leaf, blocking: set<string>)
    ensures GateBlocked(number, init + [last], blocking) <==>
      GateBlocked(number, init, blocking) || (Gated(number, last) && last.id in blocking)
  {
    assert last in init + [last] && forall x :: x in init + [last] <==> x in init || x == last;
  }

  lemma {:induction false} BlockedIffCounted(number: int, picked: seq<Leaf>, blocking: set<string>)
    ensures GateBlocked(number, picked, blocking) <==> CountIn(Contributors(picked, number), blocking) > 0
  {
    if picked == [] {
    } else {
      var init, last := picked[..|picked| - 1], picked[|picked| - 1];
      assert picked == init + [last];
      BlockedIffCounted(number, init, blocking);
      BlockedSnoc(number, init, last, blocking);
      if Gated(number, last) {
        CountSnoc(Contributors(init, number), last.id, blocking);
      }
    }
  }

  /** A gate fails exactly when a leaf that matches it stands behind a blocking finding. */
  lemma FailsIffBlocked(g: Gate, number: int, picked: seq<Leaf>, blocking: set<string>)
    requires IsDecided(g, number, picked, blocking)
    ensures g.status == Fail <==> GateBlocked(number, picked, blocking)
  {
    BlockedIffCounted(number, picked, blocking);
  }

  /** Gates 1, 2, ... in order. */
  ghost predicate AreGates(gates: seq<Gate>, picked: seq<Leaf>, blocking: set<string>) {
    forall i :: 0 <= i < |gates| ==> IsGate(gates[i], i + 1, picked, blocking)
  }

  lemma AreGatesSnoc(gates: seq<Gate>, g: Gate, picked: seq<Leaf>, blocking: set<string>)
    requires AreGates(gates, picked, blocking) && IsGate(g, |gates| + 1, picked, blocking)
    ensures AreGates(gates + [g], picked, blocking)
  {
  }

  method EvaluateGates(picked: seq<Leaf>, blocking: set<string>) returns (gates: seq<Gate>)
    ensures |gates| == GATE_COUNT && AreGates(gates, picked, blocking)
  {
    gates := [];
    for i := 0 to GATE_COUNT
      invariant |gates| == i && AreGates(gates, picked, blocking)
    {
      var g := EvaluateGate(i + 1, picked, blocking);
      AreGatesSnoc(gates, g, picked, blocking);
      gates := gates + [g];
    }
  }

  method AnyFail(gates: seq<Gate>) returns (any: bool)
    ensures any <==> exists i :: 0 <= i < |gates| && gates[i].status == Fail
  {
    any := false;
    for i := 0 to |gates|
      invariant any <==> exists j :: 0 <= j < i && gates[j].status == Fail
    {
      any := any || gates[i].status == Fail;
    }
  }

  lemma AnyFailIff(gates: seq<Gate>, picked: seq<Leaf>, blocking: set<string>)
    requires |gates| == GATE_COUNT && AreGates(gates, picked, blocking)
    ensures (exists i :: 0 <= i < |gates| && gates[i].status == Fail) <==> SomeGateBlocked(picked, blocking)
  {
    forall i | 0 <= i < GATE_COUNT ensures gates[i].status == Fail <==> GateBlocked(i + 1, picked, blocking) {
      FailsIffBlocked(gates[i], i + 1, picked, blocking);
    }
    if number :| 1 <= number <= GATE_COUNT && GateBlocked(number, picked, blocking) {
      assert gates[number - 1].status == Fail;
    }
  }

  method SynthesizeReadiness(findings: seq<Record>, picked: seq<Leaf>, coverageViolated: bool)
      returns (gates: seq<Gate>, verdict: Verdict)
    ensures |gates| == 8 && AreGates(gates, picked, BlockingLeaves(findings))
    ensures verdict == VerdictOf(findings, picked, coverageViolated)
  {
    var blocking := CollectBlocking(findings);
    gates := EvaluateGates(picked, blocking);
    var anyFail := AnyFail(gates);
    AnyFailIff(gates, picked, blocking);
    verdict := if anyFail || coverageViolated then NoGo else Go;
  }

  // ---- what a tag is -----------------------------------------------------------------------

  /** `t` stands in `s` between hyphens or ends. */
  predicate StandsAt(t: string, s: string, at: nat) {
    && at + |t| <= |s| && s[at..at + |t|] == t
    && (at == 0 || s[at - 1] == '-')
    && (at + |t| == |s| || s[at + |t|] == '-')
  }

  function WithFirst(c: char, segs: seq<string>): seq<string>
    requires segs != []
  {
    if c == '-' then [""] + segs else [[c] + segs[0]] + segs[1..]
  }

  lemma SplitCons(c: char, s: string)
    ensures SplitHyphens([c] + s) == WithFirst(c, SplitHyphens(s))
  {
    assert ([c] + s)[1..] == s;
  }

  lemma WithFirstAppend(c: char, a: seq<string>, b: seq<string>)
    requires a != []
    ensures WithFirst(c, a + b) == WithFirst(c, a) + b
  {
    assert (a + b)[0] == a[0] && (a + b)[1..] == a[1..] + b;
  }

  lemma {:induction false} SplitAppend(a: string, b: string)
    ensures SplitHyphens(a + "-" + b) == SplitHyphens(a) + SplitHyphens(b)
  {
    if a == [] {
      assert a + "-" + b == ['-'] + b;
      SplitCons('-', b);
    } else {
      var c, rest := a[0], a[1..];
      SplitAppend(rest, b);
      assert a == [c] + rest && a + "-" + b == [c] + (rest + "-" + b);
      SplitCons(c, rest);
      SplitCons(c, rest + "-" + b);
      WithFirstAppend(c, SplitHyphens(rest), SplitHyphens(b));
    }
  }

  lemma {:induction false} JoinSplit(s: string)
    ensures JoinHyphens(SplitHyphens(s)) == s
  {
    if s == [] {
    } else {
      JoinSplit(s[1..]);
      var rest := SplitHyphens(s[1..]);
      if s[0] == '-' {
        assert ([""] + rest)[1..] == rest;
      }
    }
  }

  lemma {:induction false} JoinAppend(a: seq<string>, b: seq<string>)
    requires a != [] && b != []
    ensures JoinHyphens(a + b) == JoinHyphens(a) + "-" + JoinHyphens(b)
  {
    if |a| == 1 {
      assert (a + b)[1..] == b;
    } else {
      JoinAppend(a[1..], b);
      assert (a + b)[1..] == a[1..] + b;
    }
  }

  lemma StandingTail(t: string, s: string, at: nat)
    requires StandsAt(t, s, at)
    ensures var tail, k := SplitHyphens(s[at..]), |SplitHyphens(t)|; k <= |tail| && tail[..k] == SplitHyphens(t)
  {
    if at + |t| == |s| {
      assert s[at..] == t;
    } else {
      var after := s[at + |t| + 1..];
      assert s[at..] == t + "-" + after;
      SplitAppend(t, after);
    }
  }

  lemma StandingHead(t: string, s: string, at: nat) returns (i: nat)
    requires StandsAt(t, s, at)
    ensures i <= |SplitHyphens(s)| && SplitHyphens(s)[i..] == SplitHyphens(s[at..])
  {
    if at == 0 {
      i := 0;
      assert s[at..] == s;
    } else {
      var before := s[..at - 1];
      assert s == before + "-" + s[at..];
      SplitAppend(before, s[at..]);
      i := |SplitHyphens(before)|;
    }
  }

  lemma StandingSplits(t: string, s: string, at: nat) returns (i: nat)
    requires StandsAt(t, s, at)
    ensures i + |SplitHyphens(t)| <= |SplitHyphens(s)|
    ensures SplitHyphens(s)[i..i + |SplitHyphens(t)|] == SplitHyphens(t)
  {
    StandingTail(t, s, at);
    i := StandingHead(t, s, at);
    var k := |SplitHyphens(t)|;
    assert SplitHyphens(s)[i..i + k] == SplitHyphens(s)[i..][..k];
  }

  /** Joining a run of segments and what follows puts the run first, up to a hyphen. */
  lemma JoinStartsWith(run: seq<string>, after: seq<string>)
    requires run != []
    ensures StandsAt(JoinHyphens(run), JoinHyphens(run + after), 0)
  {
    if after != [] {
      JoinAppend(run, after);
    } else {
      assert run + after == run;
    }
  }

  lemma StandsBehind(t: string, rest: string, before: string)
    requires StandsAt(t, rest, 0)
    ensures StandsAt(t, before + "-" + rest, |before| + 1)
  {
    var s := before + "-" + rest;
    assert s[|before| + 1..] == rest;
    assert s[|before| + 1..|before| + 1 + |t|] == rest[..|t|];
  }

  lemma GramStands(s: string, i: nat, n: nat) returns (at: nat)
    requires n > 0 && i + n <= |SplitHyphens(s)|
    ensures StandsAt(Gram(SplitHyphens(s), i, n), s, at)
  {
    var segs := SplitHyphens(s);
    JoinSplit(s);
    var before, run, after := segs[..i], segs[i..i + n], segs[i + n..];
    assert segs == before + (run + after);
    JoinStartsWith(run, after);
    if i > 0 {
      JoinAppend(before, run + after);
      StandsBehind(JoinHyphens(run), JoinHyphens(run + after), JoinHyphens(before));
      at := |JoinHyphens(before)| + 1;
    } else {
      assert segs == run + after;
      at := 0;
    }
  }

  lemma {:induction false} HyphenFreeSegments(s: string, i: nat)
    requires i < |SplitHyphens(s)|
    ensures SplitHyphens(SplitHyphens(s)[i]) == [SplitHyphens(s)[i]]
  {
    if s == [] {
    } else {
      var rest := SplitHyphens(s[1..]);
      if s[0] == '-' {
        if i > 0 { HyphenFreeSegments(s[1..], i - 1); }
      } else {
        HyphenFreeSegments(s[1..], i);
        if i == 0 {
          assert ([s[0]] + rest[0])[1..] == rest[0];
        }
      }
    }
  }

  lemma {:induction false} SplitJoin(segs: seq<string>)
    requires segs != [] && forall k :: 0 <= k < |segs| ==> SplitHyphens(segs[k]) == [segs[k]]
    ensures SplitHyphens(JoinHyphens(segs)) == segs
  {
    if |segs| == 1 {
    } else {
      SplitJoin(segs[1..]);
      SplitAppend(segs[0], JoinHyphens(segs[1..]));
    }
  }

  lemma GramSplits(s: string, i: nat, n: nat)
    requires n > 0 && i + n <= |SplitHyphens(s)|
    ensures |SplitHyphens(Gram(SplitHyphens(s), i, n))| == n
  {
    var run := SplitHyphens(s)[i..i + n];
    forall k | 0 <= k < |run| ensures SplitHyphens(run[k]) == [run[k]] {
      HyphenFreeSegments(s, i + k);
    }
    SplitJoin(run);
  }

  lemma TagIsGram(id: string, t: string) returns (i: nat, n: nat)
    requires t in Tags(id) && t != id
    ensures 1 <= n <= LONGEST_GRAM && i + n <= |SplitHyphens(id)| && t == Gram(SplitHyphens(id), i, n)
  {
    var segs := SplitHyphens(id);
    i, n :| 0 <= i < |segs| && 1 <= n <= LONGEST_GRAM && i + n <= |segs| && t == Gram(segs, i, n);
  }

  lemma PhraseIsTag(id: string, t: string, at: nat)
    requires id != "" && |SplitHyphens(t)| <= LONGEST_GRAM && StandsAt(t, id, at)
    ensures t in Tags(id)
  {
    var i := StandingSplits(t, id, at);
    JoinSplit(t);
    assert t == Gram(SplitHyphens(id), i, |SplitHyphens(t)|);
  }

  ghost predicate Stands(t: string, s: string) { exists at :: StandsAt(t, s, at) }

  /** A tag is the id itself, or a phrase of at most four words that stands in it between hyphens. */
  lemma TagsAreStandingPhrases(id: string, t: string)
    requires id != ""
    ensures t in Tags(id) <==> t == id || (|SplitHyphens(t)| <= LONGEST_GRAM && Stands(t, id))
  {
    if t in Tags(id) && t != id {
      var i, n := TagIsGram(id, t);
      var at := GramStands(id, i, n);
      GramSplits(id, i, n);
    }
    if |SplitHyphens(t)| <= LONGEST_GRAM && Stands(t, id) {
      var at :| StandsAt(t, id, at);
      PhraseIsTag(id, t, at);
    }
  }
}
