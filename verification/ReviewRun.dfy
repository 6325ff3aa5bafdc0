/** What a run of the state machine concludes: the parts of the run state that decide the verdict,
    followed from state to state. */
module ReviewRun {
  import opened Util
  import opened Findings
  import opened Leaves
  import opened Ranking
  import opened Coverage
  import opened Readiness
  import opened VerdictTheorems
  import opened Fsm
  import opened Dedup
  import Collect

  /** What the workers of a run answer, where the verdict can see it: the changed paths, the leaves
      and rescues picked, the findings collected from the specialists, and the ranker's decisions. */
  datatype Answers = Answers(changed: seq<string>, picked: seq<Leaf>, rescues: seq<Rescue>,
                             collected: seq<Record>, decisions: seq<Decision>, rankThreshold: Option<real>)

  /** The run state that decides the verdict. */
  datatype Facts = Facts(changed: seq<string>, picked: seq<Leaf>, rescues: seq<Rescue>, findings: seq<Record>,
                         violated: bool, degraded: bool, verdict: Option<Verdict>)

  const NOTHING := Facts([], [], [], [], false, false, None)

  ghost function RankedOf(w: Answers): seq<Record> {
    Ranked(w.collected, w.decisions, Threshold(w.rankThreshold))
  }

  /** What the state's worker or handler puts into the run state. */
  ghost function Effect(s: StateId, f: Facts, w: Answers): Facts {
    match s
    case ScanProject => f.(changed := w.changed)
    case LlmTrim => f.(picked := w.picked, rescues := w.rescues)
    case CollectFindings => f.(findings := w.collected)
    case RankFindings => f.(findings := Ranked(f.findings, w.decisions, Threshold(w.rankThreshold)))
    case VerifyCoverage => f.(violated := CoverageViolated(f.findings, f.picked, f.rescues, f.changed))
    case VerifierStuck => f.(degraded := true)
    case ShortCircuitExit => f.(findings := [], verdict := Some(Go))
    case StageAEmpty => f.(findings := [], degraded := true, verdict := Some(Conditional))
    case SynthesizeReleaseReadiness => f.(verdict := Some(VerdictOf(f.findings, f.picked, f.violated)))
    case _ => f
  }

  /** The states of a run before its `k`-th step. */
  ghost function Path(envs: nat -> Env, k: nat): seq<StateId> {
    if k == 0 then [] else Path(envs, k - 1) + [At(envs, k - 1).state]
  }

  /** The facts at the end of a path. */
  ghost function Along(path: seq<StateId>, w: Answers): Facts {
    var n := |path| - 1;
    if n < 0 then NOTHING else Effect(path[n], Along(path[..n], w), w)
  }

  /** The facts of a run before its `k`-th step. */
  ghost function FactsAt(envs: nat -> Env, w: Answers, k: nat): Facts { Along(Path(envs, k), w) }

  /** What a run remembers of its way: whether it collected findings, and how it ended. */
  datatype Trail = Trail(collected: bool, ending: Option<StateId>)

  function Mark(s: StateId, t: Trail): Trail {
    if s == CollectFindings then t.(collected := true)
    else if Rank(s) == Rank(VerifierStuck) then t.(ending := Some(s))
    else t
  }

  function TrailOf(path: seq<StateId>): Trail {
    var n := |path| - 1;
    if n < 0 then Trail(false, None) else Mark(path[n], TrailOf(path[..n]))
  }

  lemma {:induction false} TrailRemembers(path: seq<StateId>)
    ensures var t := TrailOf(path);
      && (t.collected <==> CollectFindings in path)
      && (t.ending.Some? ==> t.ending.value in path && t.ending.value in ENDINGS)
  {
    if path == [] {
    } else {
      var n := |path| - 1;
      TrailRemembers(path[..n]);
      EndingsRank(path[n]);
      assert path == path[..n] + [path[n]];
    }
  }

  lemma {:induction false} PathVisits(envs: nat -> Env, s: StateId, k: nat)
    ensures s in Path(envs, k) <==> Visits(envs, s, k) >= 1
  {
    if k == 0 {
    } else {
      PathVisits(envs, s, k - 1);
      VisitsStep(envs, s, k);
    }
  }

  lemma TrailCounts(envs: nat -> Env, k: nat)
    ensures var t := TrailOf(Path(envs, k));
      && (t.collected <==> Visits(envs, CollectFindings, k) >= 1)
      && (t.ending.Some? ==> t.ending.value in ENDINGS && Visits(envs, t.ending.value, k) >= 1)
  {
    TrailRemembers(Path(envs, k));
    PathVisits(envs, CollectFindings, k);
    if TrailOf(Path(envs, k)).ending.Some? {
      PathVisits(envs, TrailOf(Path(envs, k)).ending.value, k);
    }
  }

  // ---- the way to coverage -----------------------------------------------------------------

  /** The states before any ending, and the one regular ending. */
  predicate OnMainLine(s: StateId) { Rank(s) > 4 || s == VerifyCoverage }

  /** The facts on entering such a state depend on nothing but the state and the answers. */
  ghost function MainFacts(s: StateId, w: Answers): Facts {
    Facts(
      if Rank(s) < Rank(ScanProject) then w.changed else [],
      if Rank(s) < Rank(LlmTrim) then w.picked else [],
      if Rank(s) < Rank(LlmTrim) then w.rescues else [],
      if s == RankFindings then w.collected else if s == VerifyCoverage then RankedOf(w) else [],
      false, false, None)
  }

  /** Where a run may be after a step from `s`. */
  ghost function Next(s: StateId): iset<StateId> {
    iset u | Follows(s, u) || s == u == DispatchSpecialists
  }

  /** Main-line transitions never skip a state that leaves a mark. */
  lemma MainEdges(s: StateId, t: StateId)
    requires t in Next(s) && OnMainLine(s) && OnMainLine(t)
    ensures Rank(t) == Rank(s) - 1 || s == t == DispatchSpecialists
      || (s == PlanSpecialistBatches && t == MergeSpecialistOutputs)
  {
    if Follows(s, t) {
      var i :| 0 <= i < |Transitions(s)| && Transitions(s)[i].to == t;
      assert i < 3;
    }
  }

  lemma MainStep(s: StateId, t: StateId, w: Answers)
    requires t in Next(s) && OnMainLine(s) && OnMainLine(t)
    ensures Effect(s, MainFacts(s, w), w) == MainFacts(t, w)
  {
    MainEdges(s, t);
  }

  // ---- the endings -------------------------------------------------------------------------

  /** The run ends with these findings, degraded or not, and this verdict. */
  ghost predicate Concludes(f: Facts, findings: seq<Record>, degraded: bool, verdict: Verdict) {
    f.findings == findings && f.degraded == degraded && f.verdict == Some(verdict)
  }

  /** The findings of a run that got stuck: ranked ones if any were collected. */
  ghost function StuckFindings(t: Trail, w: Answers): seq<Record> {
    if t.collected then RankedOf(w) else []
  }

  /** The facts on entering an ending other than the regular one. */
  ghost predicate EndingFacts(s: StateId, t: Trail, f: Facts, w: Answers) {
    && !f.violated && !f.degraded
    && (s == VerifierStuck ==> f.findings == StuckFindings(t, w) && (t.collected ==> f.picked == w.picked))
    && (s != VerifierStuck ==> !t.collected)
  }

  /** The facts on entering the gates. */
  ghost predicate GateFacts(t: Trail, f: Facts, w: Answers) {
    if t.ending == Some(VerifyCoverage) then f == Effect(VerifyCoverage, MainFacts(VerifyCoverage, w), w)
    else
      t.ending == Some(VerifierStuck) && EndingFacts(VerifierStuck, t, f.(degraded := false), w) && f.degraded
  }

  /** The facts of a run with a verdict. */
  ghost predicate FinalFacts(t: Trail, f: Facts, w: Answers) {
    match t.ending
    case Some(VerifyCoverage) =>
      Concludes(f, RankedOf(w), false, FinalVerdict(RankedOf(w), w.picked, w.rescues, w.changed))
    case Some(VerifierStuck) =>
      Concludes(f, StuckFindings(t, w), true, if GateHeld(StuckFindings(t, w), w.picked) then NoGo else Go)
    case Some(ShortCircuitExit) => !t.collected && Concludes(f, [], false, Go)
    case Some(StageAEmpty) => !t.collected && Concludes(f, [], true, Conditional)
    case _ => false
  }

  /** What can be said of a run that enters `s` with this trail and these facts. */
  ghost predicate Tells(s: StateId, t: Trail, f: Facts, w: Answers) {
    if OnMainLine(s) then
      t == Trail(Rank(s) < Rank(CollectFindings), None) && f == MainFacts(s, w)
    else if s in ENDINGS then t.ending == None && EndingFacts(s, t, f, w)
    else if s == SynthesizeReleaseReadiness then GateFacts(t, f, w)
    else FinalFacts(t, f, w)
  }

  lemma WayDown(s: StateId, t: StateId)
    requires Follows(s, t)
    ensures OnMainLine(s) && s != VerifyCoverage ==> Rank(t) >= 4
    ensures Rank(s) < 4 ==> Rank(t) < 3
  {
    var i :| 0 <= i < |Transitions(s)| && Transitions(s)[i].to == t;
    assert i < 3;
  }

  lemma WayFromEnding(s: StateId, t: StateId)
    requires Follows(s, t)
    ensures s in {VerifyCoverage, VerifierStuck} ==> t == SynthesizeReleaseReadiness
    ensures s in {ShortCircuitExit, StageAEmpty} ==> t == WriteRunDirectory
  {
    var i :| 0 <= i < |Transitions(s)| && Transitions(s)[i].to == t;
    assert i < 3;
  }

  lemma WayOut(s: StateId, t: StateId)
    requires Follows(s, t)
    ensures OnMainLine(s) && s != VerifyCoverage ==> Rank(t) >= 4
    ensures s in {VerifyCoverage, VerifierStuck} ==> t == SynthesizeReleaseReadiness
    ensures s in {ShortCircuitExit, StageAEmpty} ==> t == WriteRunDirectory
    ensures Rank(s) < 4 ==> Rank(t) < 3
  {
    WayDown(s, t);
    WayFromEnding(s, t);
  }

  lemma WayIn(s: StateId, t: StateId)
    requires Follows(s, t)
    ensures t in {ShortCircuitExit, StageAEmpty} ==> Rank(s) > Rank(CollectFindings)
    ensures t == VerifierStuck && Rank(s) <= Rank(CollectFindings) ==> s == RankFindings
  {
    var i :| 0 <= i < |Transitions(s)| && Transitions(s)[i].to == t;
    assert i < 3;
  }

  lemma LeaveMainLine(s: StateId, t: StateId, w: Answers)
    requires Rank(s) > 4 && Follows(s, t) && t in ENDINGS && t != VerifyCoverage
    ensures EndingFacts(t, Mark(s, Trail(Rank(s) < Rank(CollectFindings), None)), Effect(s, MainFacts(s, w), w), w)
  {
    WayIn(s, t);
  }

  lemma EndingStep(s: StateId, t: Trail, f: Facts, w: Answers)
    requires t.ending == None && s in ENDINGS && s != VerifyCoverage && EndingFacts(s, t, f, w)
    ensures s == VerifierStuck ==> GateFacts(Mark(s, t), Effect(s, f, w), w)
    ensures s != VerifierStuck ==> FinalFacts(Mark(s, t), Effect(s, f, w), w)
  {
  }

  lemma CoverageConcludes(f: Facts, w: Answers)
    ensures Concludes(Effect(SynthesizeReleaseReadiness, Effect(VerifyCoverage, f, w), w), f.findings, f.degraded,
                      FinalVerdict(f.findings, f.picked, f.rescues, f.changed))
  {
    var violated := CoverageViolated(f.findings, f.picked, f.rescues, f.changed);
    assert Effect(VerifyCoverage, f, w) == f.(violated := violated);
  }

  lemma GatesStep(t: Trail, f: Facts, w: Answers)
    requires GateFacts(t, f, w)
    ensures FinalFacts(t, Effect(SynthesizeReleaseReadiness, f, w), w)
  {
    if t.ending == Some(VerifyCoverage) {
      CoverageConcludes(MainFacts(VerifyCoverage, w), w);
    } else {
      GateHeldIff(f.findings, f.picked);
    }
  }

  lemma CoverageStep(t: Trail, f: Facts, w: Answers)
    requires Tells(VerifyCoverage, t, f, w)
    ensures Tells(SynthesizeReleaseReadiness, Mark(VerifyCoverage, t), Effect(VerifyCoverage, f, w), w)
  {
    assert f == MainFacts(VerifyCoverage, w);
  }

  lemma AfterEnding(s: StateId, u: StateId, t: Trail, f: Facts, w: Answers)
    requires s in ENDINGS && s != VerifyCoverage && Follows(s, u)
    requires t.ending == None && EndingFacts(s, t, f, w)
    ensures Tells(u, Mark(s, t), Effect(s, f, w), w)
  {
    WayOut(s, u);
    EndingStep(s, t, f, w);
  }

  lemma AfterGates(s: StateId, u: StateId, t: Trail, f: Facts, w: Answers)
    requires Rank(s) < 4 && Tells(s, t, f, w) && Follows(s, u)
    ensures Tells(u, Mark(s, t), Effect(s, f, w), w)
  {
    WayOut(s, u);
    if s == SynthesizeReleaseReadiness {
      GatesStep(t, f, w);
    }
  }

  lemma MarkOnMainLine(s: StateId, u: StateId)
    requires OnMainLine(s) && OnMainLine(u) && u in Next(s)
    ensures Mark(s, Trail(Rank(s) < Rank(CollectFindings), None)) == Trail(Rank(u) < Rank(CollectFindings), None)
  {
    MainEdges(s, u);
  }

  lemma AlongMainLine(s: StateId, u: StateId, t: Trail, f: Facts, w: Answers)
    requires OnMainLine(s) && OnMainLine(u) && Tells(s, t, f, w) && u in Next(s)
    ensures Tells(u, Mark(s, t), Effect(s, f, w), w)
  {
    MainStep(s, u, w);
    MarkOnMainLine(s, u);
  }

  lemma OffMainLine(s: StateId, u: StateId, t: Trail, f: Facts, w: Answers)
    requires Rank(s) > 4 && !OnMainLine(u) && Tells(s, t, f, w) && Follows(s, u)
    ensures Tells(u, Mark(s, t), Effect(s, f, w), w)
  {
    WayOut(s, u);
    EndingsRank(u);
    LeaveMainLine(s, u, w);
  }

  /** The facts a run may have in a state it reaches by a trail. */
  ghost function Possible(s: StateId, t: Trail, w: Answers): iset<Facts> {
    iset f | Tells(s, t, f, w)
  }

  lemma OntoEndings(s: StateId, u: StateId, t: Trail, f: Facts, w: Answers)
    requires OnMainLine(s) && !OnMainLine(u) && Tells(s, t, f, w) && Follows(s, u)
    ensures Tells(u, Mark(s, t), Effect(s, f, w), w)
  {
    if s == VerifyCoverage {
      WayOut(s, u);
      CoverageStep(t, f, w);
    } else {
      OffMainLine(s, u, t, f, w);
    }
  }

  lemma PastEndings(s: StateId, u: StateId, t: Trail, f: Facts, w: Answers)
    requires !OnMainLine(s) && Tells(s, t, f, w) && Follows(s, u)
    ensures Tells(u, Mark(s, t), Effect(s, f, w), w)
  {
    if s in ENDINGS {
      AfterEnding(s, u, t, f, w);
    } else {
      EndingsRank(s);
      AfterGates(s, u, t, f, w);
    }
  }

  lemma PossibleStep(s: StateId, u: StateId, t: Trail, f: Facts, w: Answers)
    requires f in Possible(s, t, w) && u in Next(s)
    ensures Effect(s, f, w) in Possible(u, Mark(s, t), w)
  {
    if OnMainLine(s) && OnMainLine(u) {
      AlongMainLine(s, u, t, f, w);
    } else if OnMainLine(s) {
      OntoEndings(s, u, t, f, w);
    } else {
      PastEndings(s, u, t, f, w);
    }
  }

  lemma AtTheStart(w: Answers)
    ensures NOTHING in Possible(ScanProject, Trail(false, None), w)
  {
  }

  /** The path takes declared steps only, from the first state to `s`. */
  ghost predicate Walk(path: seq<StateId>, s: StateId) {
    var n := |path| - 1;
    if n < 0 then s == ScanProject else s in Next(path[n]) && Walk(path[..n], path[n])
  }

  lemma {:induction false} AlwaysPossible(path: seq<StateId>, s: StateId, w: Answers)
    requires Walk(path, s)
    ensures Along(path, w) in Possible(s, TrailOf(path), w)
  {
    if path == [] {
      AtTheStart(w);
    } else {
      var n := |path| - 1;
      AlwaysPossible(path[..n], path[n], w);
      PossibleStep(path[n], s, TrailOf(path[..n]), Along(path[..n], w), w);
    }
  }

  lemma PossibleInTheEnd(t: Trail, f: Facts, w: Answers)
    requires f in Possible(Terminal, t, w)
    ensures FinalFacts(t, f, w)
  {
  }

  lemma WalkSnoc(path: seq<StateId>, s: StateId, u: StateId)
    requires Walk(path, s) && u in Next(s)
    ensures Walk(path + [s], u)
  {
    assert (path + [s])[..|path|] == path;
  }

  lemma StepIsNext(envs: nat -> Env, k: nat)
    requires k > 0 && Going(envs, k)
    ensures At(envs, k).state in Next(At(envs, k - 1).state)
  {
    StepFollows(envs, k);
  }

  lemma {:induction false} RunIsWalk(envs: nat -> Env, k: nat, path: seq<StateId>, s: StateId)
    requires Going(envs, k) && path == Path(envs, k) && s == At(envs, k).state
    ensures Walk(path, s)
  {
    if k == 0 {
    } else {
      var init, last := Path(envs, k - 1), At(envs, k - 1).state;
      RunIsWalk(envs, k - 1, init, last);
      StepIsNext(envs, k);
      assert path == init + [last];
      WalkSnoc(init, last, s);
    }
  }

  // ---- what a run concludes ----------------------------------------------------------------

  lemma TwoEndings(envs: nat -> Env, s: StateId, t: StateId, k: nat)
    requires s in ENDINGS && t in ENDINGS && s != t
    ensures Visits(envs, s, k) + Visits(envs, t, k) <= Endings(envs, k)
  {
  }

  /** The ending a run passed through is the one it remembers. */
  lemma EndedThere(envs: nat -> Env, s: StateId, t: StateId, k: nat)
    requires Going(envs, k) && At(envs, k).state == Terminal
    requires s in ENDINGS && Visits(envs, s, k) >= 1 && t in ENDINGS && Visits(envs, t, k) >= 1
    ensures s == t
  {
    ExactlyOneEnding(envs, k);
    if s != t {
      TwoEndings(envs, s, t, k);
    }
  }

  lemma InTheEnd(envs: nat -> Env, w: Answers, k: nat)
    requires Going(envs, k) && At(envs, k).state == Terminal
    ensures FinalFacts(TrailOf(Path(envs, k)), FactsAt(envs, w, k), w)
  {
    RunIsWalk(envs, k, Path(envs, k), Terminal);
    AlwaysPossible(Path(envs, k), Terminal, w);
    PossibleInTheEnd(TrailOf(Path(envs, k)), FactsAt(envs, w, k), w);
  }

  /** What a run through the ending `s` concludes. */
  lemma EndsAs(envs: nat -> Env, w: Answers, s: StateId, k: nat)
    requires Going(envs, k) && At(envs, k).state == Terminal && s in ENDINGS && Visits(envs, s, k) >= 1
    ensures FinalFacts(Trail(Visits(envs, CollectFindings, k) >= 1, Some(s)), FactsAt(envs, w, k), w)
  {
    InTheEnd(envs, w, k);
    TrailCounts(envs, k);
    EndedThere(envs, s, TrailOf(Path(envs, k)).ending.value, k);
  }

  /** A run that verified coverage is not degraded, and its verdict is that of ranking, coverage and
      gates on the collected findings: GO exactly as `GoMeans` says. */
  lemma CoveredRunConcludes(envs: nat -> Env, w: Answers, k: nat)
    requires Going(envs, k) && At(envs, k).state == Terminal && Visits(envs, VerifyCoverage, k) >= 1
    ensures Concludes(FactsAt(envs, w, k), RankedOf(w), false,
                      FinalVerdict(RankedOf(w), w.picked, w.rescues, w.changed))
  {
    EndsAs(envs, w, VerifyCoverage, k);
  }

  /** A run that hit an impasse is degraded, coverage or not. Its findings are the ranked ones if any
      were collected, and its verdict is GO exactly when no picked leaf that belongs to a gate stands
      behind a critical or important one: being degraded does not lower it. */
  lemma StuckRunConcludes(envs: nat -> Env, w: Answers, k: nat)
    requires Going(envs, k) && At(envs, k).state == Terminal && Visits(envs, VerifierStuck, k) >= 1
    ensures var fs := if Visits(envs, CollectFindings, k) >= 1 then RankedOf(w) else [];
      Concludes(FactsAt(envs, w, k), fs, true, if GateHeld(fs, w.picked) then NoGo else Go)
  {
    EndsAs(envs, w, VerifierStuck, k);
  }

  /** In particular a run stuck anywhere before the ranker ends GO, degraded as it is. */
  lemma EarlyImpasseIsGo(envs: nat -> Env, w: Answers, k: nat)
    requires Going(envs, k) && At(envs, k).state == Terminal
    requires Visits(envs, VerifierStuck, k) >= 1 && Visits(envs, CollectFindings, k) == 0
    ensures Concludes(FactsAt(envs, w, k), [], true, Go)
  {
    StuckRunConcludes(envs, w, k);
  }

  /** A trivial diff is GO and not degraded; with nothing to review the verdict is CONDITIONAL. */
  lemma OtherRunsConclude(envs: nat -> Env, w: Answers, s: StateId, k: nat)
    requires Going(envs, k) && At(envs, k).state == Terminal
    requires s in {ShortCircuitExit, StageAEmpty} && Visits(envs, s, k) >= 1
    ensures Concludes(FactsAt(envs, w, k), [], s == StageAEmpty, if s == StageAEmpty then Conditional else Go)
  {
    EndsAs(envs, w, s, k);
  }

  lemma StuckBefore(envs: nat -> Env, j: nat)
    requires Going(envs, j + 1) && Rank(At(envs, j).state) > Rank(CollectFindings)
    ensures Visits(envs, CollectFindings, j + 1) == 0
  {
    GoingBefore(envs, j, j + 1);
    NeverReturns(envs, CollectFindings, j);
    VisitsStep(envs, CollectFindings, j + 1);
  }

  lemma StuckInRanker(envs: nat -> Env, j: nat)
    requires Going(envs, j) && At(envs, j).state == RankFindings
    ensures Visits(envs, CollectFindings, j + 1) >= 1
  {
    CameFrom(envs, j);
    OnlyWayIn(At(envs, j - 1).state, RankFindings);
    VisitsGrow(envs, CollectFindings, j, j + 1);
  }

  /** A run that goes from a state into a verifier impasse has collected findings exactly when that
      state is the ranker. */
  lemma ImpasseAfterCollectionIff(envs: nat -> Env, j: nat)
    requires Going(envs, j + 1) && At(envs, j + 1).state == VerifierStuck
    ensures Visits(envs, CollectFindings, j + 1) >= 1 <==> At(envs, j).state == RankFindings
  {
    StepIsNext(envs, j + 1);
    WayIn(At(envs, j).state, VerifierStuck);
    GoingBefore(envs, j, j + 1);
    if At(envs, j).state == RankFindings {
      StuckInRanker(envs, j);
    } else {
      StuckBefore(envs, j);
    }
  }

  // ---- from the specialists to the verdict -------------------------------------------------

  /** A run that collected findings verified coverage or got stuck in the ranker. */
  lemma CollectedRunEnds(envs: nat -> Env, w: Answers, k: nat)
    requires Going(envs, k) && At(envs, k).state == Terminal && Visits(envs, CollectFindings, k) >= 1
    ensures Visits(envs, VerifyCoverage, k) >= 1 || Visits(envs, VerifierStuck, k) >= 1
  {
    InTheEnd(envs, w, k);
    TrailCounts(envs, k);
  }

  /** Over every run that arrives: if findings were collected, a picked leaf that belongs to a gate
      reported something critical or important, and the verdict is GO all the same, then the ranker
      explicitly dropped a critical or important finding that leaf was behind. */
  lemma GoRunDroppedExplicitly(envs: nat -> Env, w: Answers, k: nat, stream: seq<Stamped>,
                                                  threshold: real, s: Stamped, leaf: Leaf)
    requires Going(envs, k) && At(envs, k).state == Terminal && Visits(envs, CollectFindings, k) >= 1
    requires w.collected == Collect.Collected(stream, threshold) && s in stream && Blocking(s.report.severity)
    requires leaf in w.picked && leaf.id == s.id && AnswersToAGate(leaf)
    requires FactsAt(envs, w, k).verdict == Some(Go)
    ensures DropExplains(w.collected, w.decisions, leaf.id)
  {
    CollectedRunEnds(envs, w, k);
    GateHeldUnlessDropped(stream, threshold, w.decisions, Threshold(w.rankThreshold), w.picked, s, leaf);
    GateHeldIff(RankedOf(w), w.picked);
    if Visits(envs, VerifyCoverage, k) >= 1 {
      CoveredRunConcludes(envs, w, k);
    } else {
      StuckRunConcludes(envs, w, k);
    }
  }

  lemma StuckAtOnce(envs: nat -> Env)
    requires Holds(RejectedThrice(ScanProject), envs(0))
    ensures At(envs, 1).state == VerifierStuck && At(envs, 5).state == Terminal
    ensures Going(envs, 5) && Visits(envs, VerifierStuck, 2) == 1 && Visits(envs, CollectFindings, 5) == 0
  {
    assert At(envs, 1).state == VerifierStuck;
    assert At(envs, 2).state == SynthesizeReleaseReadiness;
    assert At(envs, 3).state == WriteRunDirectory;
    assert At(envs, 4).state == EmitStdout;
    assert At(envs, 5).state == Terminal;
    assert Visits(envs, CollectFindings, 3) == 0;
  }

  /** A degraded GO does happen: the verifiers of the very first state reject it three times. */
  lemma DegradedRunEndsGo(envs: nat -> Env, w: Answers)
    requires Holds(RejectedThrice(ScanProject), envs(0))
    ensures Going(envs, 5) && At(envs, 5).state == Terminal && Concludes(FactsAt(envs, w, 5), [], true, Go)
  {
    StuckAtOnce(envs);
    assert Visits(envs, VerifierStuck, 2) == 1;
    VisitsGrow(envs, VerifierStuck, 2, 5);
    EarlyImpasseIsGo(envs, w, 5);
  }
}
