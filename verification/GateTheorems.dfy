/** Which leaves answer to which gate, in the leaf's own terms: its dimensions, and the phrases that
    stand in its id between hyphens; and what follows for the gates and the verdict. */
module GateTheorems {
  import opened Util
  import opened Findings
  import opened Leaves
  import opened Readiness
  import opened VerdictTheorems
  import Ranking

  // ---- words of an id ----------------------------------------------------------------------

  lemma {:induction false} SegmentsAreHyphens(s: string)
    ensures |SplitHyphens(s)| == 1 + multiset(s)['-']
  {
    if s == [] {
    } else {
      SegmentsAreHyphens(s[1..]);
      assert s == [s[0]] + s[1..];
    }
  }

  /** The tags of an id are the id itself and the phrases of at most four words standing in it. */
  lemma TagsIff(id: string, t: string)
    ensures t in Tags(id) <==> id != "" && (t == id || (multiset(t)['-'] < 4 && Stands(t, id)))
  {
    if id != "" {
      TagsAreStandingPhrases(id, t);
      SegmentsAreHyphens(t);
    }
  }

  ghost predicate Short(t: string) { t != "" && multiset(t)['-'] < 4 }

  lemma NoHyphens(t: string)
    requires forall i :: 0 <= i < |t| ==> t[i] != '-'
    ensures multiset(t)['-'] == 0
  {
  }

  /** At most one hyphen, at place `k`, makes one or two words. */
  lemma AtMostTwoWords(t: string, k: nat)
    requires k < |t| && forall i :: 0 <= i < |t| && i != k ==> t[i] != '-'
    ensures Short(t)
  {
    assert t == t[..k] + [t[k]] + t[k + 1..];
    NoHyphens(t[..k]);
    NoHyphens(t[k + 1..]);
  }

  ghost predicate SaysOneOf(leaf: Leaf, phrases: set<string>) {
    exists t :: t in phrases && Stands(t, leaf.id)
  }

  /** Short phrases are tags exactly where they stand. */
  lemma TagsMeet(leaf: Leaf, phrases: set<string>)
    requires forall t :: t in phrases ==> Short(t)
    ensures Tags(leaf.id) * phrases != {} <==> SaysOneOf(leaf, phrases)
  {
    forall t | t in phrases ensures t in Tags(leaf.id) <==> Stands(t, leaf.id) {
      TagsIff(leaf.id, t);
      if t == leaf.id {
        assert StandsAt(t, leaf.id, 0);
      }
    }
    if t :| t in Tags(leaf.id) * phrases {
      assert t in phrases && Stands(t, leaf.id);
    }
    if t :| t in phrases && Stands(t, leaf.id) {
      assert t in Tags(leaf.id) * phrases;
    }
  }

  // ---- gate by gate ------------------------------------------------------------------------

  lemma CleanCodeShort(t: string)
    requires t in CLEAN_CODE
    ensures Short(t)
  {
    AtMostTwoWords(t, if t == "clean-code" then 5 else 0);
  }

  lemma CleanCodeSaid(leaf: Leaf)
    ensures Tags(leaf.id) * CLEAN_CODE != {} <==> SaysOneOf(leaf, CLEAN_CODE)
  {
    forall t | t in CLEAN_CODE ensures Short(t) { CleanCodeShort(t); }
    TagsMeet(leaf, CLEAN_CODE);
  }

  lemma CleanCode(leaf: Leaf)
    ensures Gated(1, leaf) <==>
      || "readability" in leaf.dimensions
      || SaysOneOf(leaf, {"solid", "dry", "kiss", "yagni", "clean-code", "naming", "complexity"})
  {
    CleanCodeSaid(leaf);
  }

  lemma ResilienceShort(t: string)
    requires t in RESILIENCE
    ensures Short(t)
  {
    AtMostTwoWords(t, if t == "error-handling" || t == "fault-tolerance" then 5
                      else if t == "circuit-breaker" then 7 else 0);
  }

  lemma ResilienceSaid(leaf: Leaf)
    ensures Tags(leaf.id) * RESILIENCE != {} <==> SaysOneOf(leaf, RESILIENCE)
  {
    forall t | t in RESILIENCE ensures Short(t) { ResilienceShort(t); }
    TagsMeet(leaf, RESILIENCE);
  }

  lemma Resilience(leaf: Leaf)
    ensures Gated(2, leaf) <==>
      && "correctness" in leaf.dimensions
      && SaysOneOf(leaf, {"error-handling", "resilience", "fault-tolerance", "retry", "circuit-breaker",
                          "concurrency", "async"})
  {
    ResilienceSaid(leaf);
  }

  lemma CodeQualityShort(t: string)
    requires t in CODE_QUALITY
    ensures Short(t)
  {
    AtMostTwoWords(t, if t == "type-safety" || t == "dead-code" then 4 else if t == "language-quality" then 8 else 0);
  }

  lemma CodeQualitySaid(leaf: Leaf)
    ensures Tags(leaf.id) * CODE_QUALITY != {} <==> SaysOneOf(leaf, CODE_QUALITY)
  {
    forall t | t in CODE_QUALITY ensures Short(t) { CodeQualityShort(t); }
    TagsMeet(leaf, CODE_QUALITY);
  }

  lemma CodeQuality(leaf: Leaf)
    ensures Gated(3, leaf) <==>
      || "correctness" in leaf.dimensions
      || SaysOneOf(leaf, {"type-safety", "idioms", "dead-code", "language-quality", "initialization",
                          "startup", "shutdown"})
  {
    CodeQualitySaid(leaf);
  }

  lemma Tests(leaf: Leaf)
    ensures Gated(4, leaf) <==> "tests" in leaf.dimensions
  {
  }

  lemma ArchitectureShort(t: string)
    requires t in ARCHITECTURE
    ensures Short(t)
  {
    AtMostTwoWords(t, if t == "api-design" then 3 else if t == "module-boundaries" then 6 else 0);
  }

  lemma ArchitectureSaid(leaf: Leaf)
    ensures Tags(leaf.id) * ARCHITECTURE != {} <==> SaysOneOf(leaf, ARCHITECTURE)
  {
    forall t | t in ARCHITECTURE ensures Short(t) { ArchitectureShort(t); }
    TagsMeet(leaf, ARCHITECTURE);
  }

  lemma Architecture(leaf: Leaf)
    ensures Gated(5, leaf) <==>
      || "architecture" in leaf.dimensions || "performance" in leaf.dimensions
      || SaysOneOf(leaf, {"api-design", "module-boundaries", "dependencies", "layering", "ddd", "microservices"})
  {
    ArchitectureSaid(leaf);
    var named := leaf.dimensions * {"architecture", "performance"};
    assert named != {} <==> "architecture" in named || "performance" in named;
  }

  lemma SecurityShort(t: string)
    requires t in SAFETY
    ensures Short(t)
  {
    AtMostTwoWords(t, if t == "hooks-safety" then 5 else if t == "supply-chain" then 6 else 12);
  }

  lemma SecuritySaid(leaf: Leaf)
    ensures Tags(leaf.id) * SAFETY != {} <==> SaysOneOf(leaf, SAFETY)
  {
    forall t | t in SAFETY ensures Short(t) { SecurityShort(t); }
    TagsMeet(leaf, SAFETY);
  }

  lemma Security(leaf: Leaf)
    ensures Gated(6, leaf) <==>
      || "security" in leaf.dimensions
      || SaysOneOf(leaf, {"hooks-safety", "supply-chain", "dependencies-security"})
  {
    SecuritySaid(leaf);
  }

  lemma Documentation(leaf: Leaf)
    ensures Gated(7, leaf) <==> "documentation" in leaf.dimensions
  {
  }

  /** A word of the id is `domain`, and more follows. */
  ghost predicate NamesDomain(id: string) {
    exists at: nat :: at <= |id| && (at == 0 || id[at - 1] == '-') && StartsWith(id[at..], "domain-")
  }

  lemma {:induction false} FirstWord(s: string) returns (n: nat)
    ensures n <= |s| && '-' !in s[..n] && (n == |s| || s[n] == '-')
  {
    if s == [] || s[0] == '-' {
      n := 0;
    } else {
      n := FirstWord(s[1..]);
      n := n + 1;
      assert s[..n] == [s[0]] + s[1..][..n - 1];
    }
  }

  lemma DomainTag(id: string, t: string)
    requires t in Tags(id) && StartsWith(t, "domain-")
    ensures NamesDomain(id)
  {
    TagsIff(id, t);
    if t == id {
      assert id[0..] == id;
    } else {
      var at: nat :| StandsAt(t, id, at);
      assert t[..7] == id[at..at + |t|][..7];
      assert id[at..][..7] == t[..7];
    }
  }

  /** A few words that begin at a word of the id, with the word they run into, are a tag. */
  lemma BeginningTagged(id: string, d: string, at: nat) returns (t: string)
    requires at <= |id| && (at == 0 || id[at - 1] == '-') && StartsWith(id[at..], d) && Short(d)
    ensures t in Tags(id) && StartsWith(t, d)
  {
    var n := FirstWord(id[at + |d|..]);
    var w := id[at + |d|..][..n];
    t := id[at..at + |d| + n];
    assert t == d + w;
    NoHyphens(w);
    assert StandsAt(t, id, at);
    TagsIff(id, t);
  }

  lemma DomainTagged(id: string) returns (t: string)
    requires NamesDomain(id)
    ensures t in Tags(id) && StartsWith(t, "domain-")
  {
    var at: nat :| at <= |id| && (at == 0 || id[at - 1] == '-') && StartsWith(id[at..], "domain-");
    AtMostTwoWords("domain-", 6);
    t := BeginningTagged(id, "domain-", at);
  }

  lemma DomainShort(t: string)
    requires t in DOMAIN
    ensures Short(t)
  {
    AtMostTwoWords(t, 0);
  }

  lemma PrefixStands(p: string, id: string)
    requires StartsWith(id, p + "-")
    ensures Stands(p, id)
  {
    var q := p + "-";
    assert id[..|p|] == id[..|q|][..|p|] == p && id[|p|] == id[..|q|][|p|] == '-';
    assert StandsAt(p, id, 0);
  }

  lemma DomainSaid(leaf: Leaf)
    ensures Tags(leaf.id) * DOMAIN != {} <==> SaysOneOf(leaf, DOMAIN)
  {
    forall t | t in DOMAIN ensures Short(t) { DomainShort(t); }
    TagsMeet(leaf, DOMAIN);
  }

  lemma Domain(leaf: Leaf)
    ensures Gated(8, leaf) <==>
      || SaysOneOf(leaf, {"cli", "api", "observability"})
      || NamesDomain(leaf.id) || StartsWith(leaf.id, "obs-")
  {
    DomainSaid(leaf);
    if t :| t in Tags(leaf.id) && StartsWith(t, "domain-") {
      DomainTag(leaf.id, t);
    }
    if NamesDomain(leaf.id) {
      var t := DomainTagged(leaf.id);
    }
    if StartsWith(leaf.id, "domain-") {
      assert leaf.id[0..] == leaf.id;
      assert NamesDomain(leaf.id);
    }
    if StartsWith(leaf.id, "cli-") {
      PrefixStands("cli", leaf.id);
    }
    if StartsWith(leaf.id, "api-") {
      PrefixStands("api", leaf.id);
    }
  }

  // ---- the verdict -------------------------------------------------------------------------

  ghost predicate HasGateDimension(leaf: Leaf) {
    || "readability" in leaf.dimensions || "correctness" in leaf.dimensions || "tests" in leaf.dimensions
    || "architecture" in leaf.dimensions || "performance" in leaf.dimensions || "security" in leaf.dimensions
    || "documentation" in leaf.dimensions
  }

  /** Resilience phrases are missing here: they count only beside `correctness`, which counts alone. */
  ghost predicate SaysGatePhrase(leaf: Leaf) {
    || SaysOneOf(leaf, {"solid", "dry", "kiss", "yagni", "clean-code", "naming", "complexity"})
    || SaysOneOf(leaf, {"type-safety", "idioms", "dead-code", "language-quality", "initialization", "startup",
                        "shutdown"})
    || SaysOneOf(leaf, {"api-design", "module-boundaries", "dependencies", "layering", "ddd", "microservices"})
    || SaysOneOf(leaf, {"hooks-safety", "supply-chain", "dependencies-security"})
    || SaysOneOf(leaf, {"cli", "api", "observability"})
    || NamesDomain(leaf.id) || StartsWith(leaf.id, "obs-")
  }

  lemma OneOfEight(leaf: Leaf)
    ensures AnswersToAGate(leaf) <==>
      || Gated(1, leaf) || Gated(2, leaf) || Gated(3, leaf) || Gated(4, leaf)
      || Gated(5, leaf) || Gated(6, leaf) || Gated(7, leaf) || Gated(8, leaf)
  {
  }

  /** A leaf answers to a gate exactly when one of its dimensions or a phrase of its id says so. */
  lemma GatekeepersAre(leaf: Leaf)
    ensures AnswersToAGate(leaf) <==> HasGateDimension(leaf) || SaysGatePhrase(leaf)
  {
    OneOfEight(leaf);
    CleanCode(leaf);
    Resilience(leaf);
    CodeQuality(leaf);
    Tests(leaf);
    Architecture(leaf);
    Security(leaf);
    Documentation(leaf);
    Domain(leaf);
  }

  /** A picked leaf that some dimension or phrase makes answer to a gate reported something critical or
      important. */
  ghost predicate GateBroken(findings: seq<Record>, picked: seq<Leaf>) {
    exists leaf, r ::
      && leaf in picked && (HasGateDimension(leaf) || SaysGatePhrase(leaf))
      && r in findings && leaf.id in r.flaggedBy && r.report.severity in {"critical", "important"}
  }

  /** The verdict in the leaves' own terms: NO-GO exactly after a violated coverage rule or a broken
      gate, and GO otherwise. A leaf with none of these dimensions and phrases never decides it. */
  lemma VerdictIff(findings: seq<Record>, picked: seq<Leaf>, violated: bool)
    ensures VerdictOf(findings, picked, violated) == NoGo <==> violated || GateBroken(findings, picked)
    ensures VerdictOf(findings, picked, violated) == Go <==> !violated && !GateBroken(findings, picked)
  {
    GateHeldIff(findings, picked);
    if leaf, r :| leaf in picked && AnswersToAGate(leaf) && r in findings && Ranking.BlocksFor(r, leaf.id) {
      GatekeepersAre(leaf);
      assert GateBroken(findings, picked);
    }
    if leaf, r :| leaf in picked && (HasGateDimension(leaf) || SaysGatePhrase(leaf)) && r in findings
                  && leaf.id in r.flaggedBy && r.report.severity in {"critical", "important"} {
      GatekeepersAre(leaf);
      assert Ranking.BlocksFor(r, leaf.id);
    }
  }

  lemma GatedFails(g: Gate, number: int, picked: seq<Leaf>, findings: seq<Record>, leaf: Leaf, r: Record)
    requires IsGate(g, number, picked, BlockingLeaves(findings)) && Gated(number, leaf)
    requires leaf in picked && r in findings && leaf.id in r.flaggedBy && r.report.severity in {"critical", "important"}
    ensures g.status == Fail
  {
    FailsIffBlocked(g, number, picked, BlockingLeaves(findings));
    assert leaf.id in BlockingLeaves(findings);
  }

  /** A dimension breaks its own gate, whatever the other leaves are. */
  lemma DimensionsFail(gates: seq<Gate>, findings: seq<Record>, picked: seq<Leaf>, leaf: Leaf, r: Record)
    requires |gates| == 8 && AreGates(gates, picked, BlockingLeaves(findings))
    requires leaf in picked && r in findings && leaf.id in r.flaggedBy && r.report.severity in {"critical", "important"}
    ensures "readability" in leaf.dimensions ==> gates[0].status == Fail
    ensures "correctness" in leaf.dimensions ==> gates[2].status == Fail
    ensures "tests" in leaf.dimensions ==> gates[3].status == Fail
    ensures "architecture" in leaf.dimensions || "performance" in leaf.dimensions ==> gates[4].status == Fail
    ensures "security" in leaf.dimensions ==> gates[5].status == Fail
    ensures "documentation" in leaf.dimensions ==> gates[6].status == Fail
  {
    forall i | 0 <= i < 8 && Gated(i + 1, leaf) ensures gates[i].status == Fail {
      GatedFails(gates[i], i + 1, picked, findings, leaf, r);
    }
    CleanCode(leaf);
    CodeQuality(leaf);
    Tests(leaf);
    Architecture(leaf);
    Security(leaf);
    Documentation(leaf);
  }

  lemma {:induction false} NoContributors(picked: seq<Leaf>, number: int)
    ensures Contributors(picked, number) == [] <==> forall leaf :: leaf in picked ==> !Gated(number, leaf)
  {
    if picked == [] {
    } else {
      var n := |picked| - 1;
      PrefixSnoc(picked, |picked|);
      assert picked[..|picked|] == picked;
      NoContributors(picked[..n], number);
      assert forall leaf :: leaf in picked <==> leaf in picked[..n] || leaf == picked[n];
    }
  }

  /** What a gate's status says: no picked leaf answers to it, or some do, and whether one of those
      stands behind a critical or important finding. */
  lemma StatusMeans(g: Gate, number: int, picked: seq<Leaf>, findings: seq<Record>)
    requires IsGate(g, number, picked, BlockingLeaves(findings))
    ensures g.status == NotApplicable <==> forall leaf :: leaf in picked ==> !Gated(number, leaf)
    ensures g.status == Fail <==> exists leaf, r ::
      && leaf in picked && Gated(number, leaf)
      && r in findings && leaf.id in r.flaggedBy && r.report.severity in {"critical", "important"}
  {
    NoContributors(picked, number);
    if g.status == Fail {
      FailsIffBlocked(g, number, picked, BlockingLeaves(findings));
      var leaf :| leaf in picked && Gated(number, leaf) && leaf.id in BlockingLeaves(findings);
      var r :| r in findings && leaf.id in r.flaggedBy && Blocking(r.report.severity);
    }
    if leaf, r :| leaf in picked && Gated(number, leaf)
                  && r in findings && leaf.id in r.flaggedBy && r.report.severity in {"critical", "important"} {
      GatedFails(g, number, picked, findings, leaf, r);
    }
  }

  lemma {:induction false} ContributorsAppend(a: seq<Leaf>, b: seq<Leaf>, number: int)
    ensures Contributors(a + b, number) == Contributors(a, number) + Contributors(b, number)
  {
    if b == [] {
      assert a + b == a;
    } else {
      var n := |b| - 1;
      assert (a + b)[..|a + b| - 1] == a + b[..n];
      ContributorsAppend(a, b[..n], number);
    }
  }

  lemma WithoutStranger(a: seq<Leaf>, leaf: Leaf, b: seq<Leaf>, number: int)
    requires !Gated(number, leaf)
    ensures Contributors(a + [leaf] + b, number) == Contributors(a + b, number)
  {
    ContributorsAppend(a + [leaf], b, number);
    ContributorsAppend(a, [leaf], number);
    ContributorsAppend(a, b, number);
    assert [leaf][..0] == [];
    assert Contributors([leaf], number) == [];
  }

  /** A leaf with none of the dimensions and phrases changes no gate and no verdict. */
  lemma StrangersDecideNothing(a: seq<Leaf>, leaf: Leaf, b: seq<Leaf>, findings: seq<Record>, violated: bool,
                               gates: seq<Gate>)
    requires !HasGateDimension(leaf) && !SaysGatePhrase(leaf) && |gates| == 8
    ensures var blocking := BlockingLeaves(findings);
      AreGates(gates, a + [leaf] + b, blocking) <==> AreGates(gates, a + b, blocking)
    ensures VerdictOf(findings, a + [leaf] + b, violated) == VerdictOf(findings, a + b, violated)
  {
    GatekeepersAre(leaf);
    forall number | 1 <= number <= 8 ensures Contributors(a + [leaf] + b, number) == Contributors(a + b, number) {
      assert !Gated(number, leaf);
      WithoutStranger(a, leaf, b, number);
    }
    VerdictIff(findings, a + [leaf] + b, violated);
    VerdictIff(findings, a + b, violated);
    assert forall l :: l in a + [leaf] + b <==> l in a + b || l == leaf;
  }
}
