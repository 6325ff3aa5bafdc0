/** The review as a state machine: the declared transitions, the engine that takes the first one whose
    guard holds, and the driver that walks it. What workers and handlers put into the run state is
    an arbitrary environment after every step. */
module Fsm {
  import opened Util

  datatype StateId =
    | ScanProject | RiskTierTriage | ActivateLeaves | TreeDescend | LlmTrim | ToolDiscovery
    | PlanSpecialistBatches | DispatchSpecialists | MergeSpecialistOutputs | CollectFindings | RankFindings
    | VerifyCoverage | VerifierStuck | ShortCircuitExit | StageAEmpty
    | SynthesizeReleaseReadiness | WriteRunDirectory | EmitStdout | Terminal

  datatype Guard = Always | RejectedThrice(s: StateId) | Trivial | NothingActivated | NoCandidates | NothingPlanned

  datatype Transition = Transition(to: StateId, guard: Guard)

  /** The parts of the run state that guards read. */
  datatype Env = Env(rejections: map<StateId, nat>, tier: string, riskSignals: nat, scopeOverrides: bool,
                     activated: nat, candidates: nat, totalBatches: nat)

  const MAX_STEPS := 512
  const MAX_ITERATIONS := 64
  const REJECTION_LIMIT := 3

  // ---- the declared machine ----------------------------------------------------------------

  function Unless(stuckIn: StateId, to: StateId): seq<Transition> {
    [Transition(VerifierStuck, RejectedThrice(stuckIn)), Transition(to, Always)]
  }

  function Transitions(s: StateId): seq<Transition> {
    match s
    case ScanProject => Unless(ScanProject, RiskTierTriage)
    case RiskTierTriage => [Transition(ShortCircuitExit, Trivial), Transition(ActivateLeaves, Always)]
    case ActivateLeaves => [Transition(StageAEmpty, NothingActivated), Transition(TreeDescend, Always)]
    case TreeDescend =>
      [Transition(VerifierStuck, RejectedThrice(TreeDescend)), Transition(StageAEmpty, NoCandidates),
       Transition(LlmTrim, Always)]
    case LlmTrim => Unless(LlmTrim, ToolDiscovery)
    case ToolDiscovery => Unless(ToolDiscovery, PlanSpecialistBatches)
    case PlanSpecialistBatches =>
      [Transition(MergeSpecialistOutputs, NothingPlanned), Transition(DispatchSpecialists, Always)]
    case DispatchSpecialists => Unless(DispatchSpecialists, MergeSpecialistOutputs)
    case MergeSpecialistOutputs => [Transition(CollectFindings, Always)]
    case CollectFindings => [Transition(RankFindings, Always)]
    case RankFindings => Unless(RankFindings, VerifyCoverage)
    case VerifyCoverage => [Transition(SynthesizeReleaseReadiness, Always)]
    case VerifierStuck => [Transition(SynthesizeReleaseReadiness, Always)]
    case ShortCircuitExit => [Transition(WriteRunDirectory, Always)]
    case StageAEmpty => [Transition(WriteRunDirectory, Always)]
    case SynthesizeReleaseReadiness => [Transition(WriteRunDirectory, Always)]
    case WriteRunDirectory => [Transition(EmitStdout, Always)]
    case EmitStdout => [Transition(Terminal, Always)]
    case Terminal => []
  }

  predicate Holds(g: Guard, e: Env) {
    match g
    case Always => true
    case RejectedThrice(s) => s in e.rejections && e.rejections[s] >= REJECTION_LIMIT
    case Trivial => e.tier == "trivial" && e.riskSignals == 0 && !e.scopeOverrides
    case NothingActivated => e.activated == 0
    case NoCandidates => e.candidates == 0
    case NothingPlanned => e.totalBatches == 0
  }

  // ---- the engine --------------------------------------------------------------------------

  function FirstMatch(ts: seq<Transition>, e: Env): Option<StateId> {
    if ts == [] then None else if Holds(ts[0].guard, e) then Some(ts[0].to) else FirstMatch(ts[1..], e)
  }

  datatype Position = Position(state: StateId, iteration: nat)

  const ENTRY := Position(ScanProject, 1)

  /** A loop iteration reports itself done when its batch is the last one planned. */
  predicate LoopContinues(p: Position, e: Env) {
    p.state == DispatchSpecialists && p.iteration != e.totalBatches && p.iteration < MAX_ITERATIONS
  }

  function Advance(p: Position, e: Env): Position {
    if LoopContinues(p, e) then p.(iteration := p.iteration + 1)
    else Position(FirstMatch(Transitions(p.state), e).GetOr(Terminal), 1)
  }

  // ---- the driver --------------------------------------------------------------------------

  datatype Outcome = Completed | Faulted(at: StateId) | MaxStepsExceeded

  /** Where a run that never faults is before its `k`-th step, when the run state after step `j` is `envs(j)`. */
  function At(envs: nat -> Env, k: nat): Position {
    if k == 0 then ENTRY else Advance(At(envs, k - 1), envs(k - 1))
  }

  /** How a step can go wrong: its worker ran out of retries, or its handler failed or its outputs
      were refused. */
  datatype Trouble = NoTrouble | GaveUp | Refused

  const DEGRADABLE := {ToolDiscovery}

  /** A worker that gave up on a best-effort stage degrades the run instead of stopping it. */
  predicate Stops(s: StateId, t: Trouble) {
    t.Refused? || (t.GaveUp? && s !in DEGRADABLE)
  }

  /** Step `k` is taken: the run has not arrived, and nothing stops it here. */
  ghost predicate Takes(envs: nat -> Env, troubles: nat -> Trouble, k: nat) {
    At(envs, k).state != Terminal && !Stops(At(envs, k).state, troubles(k))
  }

  ghost predicate TakesAll(envs: nat -> Env, troubles: nat -> Trouble, n: nat) {
    forall k: nat :: k < n ==> Takes(envs, troubles, k)
  }

  lemma TakesOneMore(envs: nat -> Env, troubles: nat -> Trouble, n: nat)
    requires TakesAll(envs, troubles, n) && Takes(envs, troubles, n)
    ensures TakesAll(envs, troubles, n + 1)
  {
  }

  const LONGEST_RUN := 78

  // ---- every run ends ----------------------------------------------------------------------

  function Rank(s: StateId): nat {
    match s
    case ScanProject => 15
    case RiskTierTriage => 14
    case ActivateLeaves => 13
    case TreeDescend => 12
    case LlmTrim => 11
    case ToolDiscovery => 10
    case PlanSpecialistBatches => 9
    case DispatchSpecialists => 8
    case MergeSpecialistOutputs => 7
    case CollectFindings => 6
    case RankFindings => 5
    case VerifyCoverage => 4
    case VerifierStuck => 4
    case ShortCircuitExit => 4
    case StageAEmpty => 4
    case SynthesizeReleaseReadiness => 3
    case WriteRunDirectory => 2
    case EmitStdout => 1
    case Terminal => 0
  }

  /** Steps still possible: the ranks below, and the loop iterations not yet used up. */
  function Budget(p: Position): int {
    Rank(p.state) +
    if Rank(p.state) > Rank(DispatchSpecialists) then MAX_ITERATIONS - 1
    else if p.state == DispatchSpecialists then MAX_ITERATIONS - p.iteration
    else 0
  }

  /** The first transition whose guard holds is taken, and no other. */
  lemma {:induction false} FirstMatchTaken(ts: seq<Transition>, e: Env) returns (i: nat)
    requires ts != [] && ts[|ts| - 1].guard == Always
    ensures i < |ts| && Holds(ts[i].guard, e) && FirstMatch(ts, e) == Some(ts[i].to)
    ensures forall j :: 0 <= j < i ==> !Holds(ts[j].guard, e)
  {
    if Holds(ts[0].guard, e) {
      i := 0;
    } else {
      assert ts[1..][|ts| - 2] == ts[|ts| - 1];
      var k := FirstMatchTaken(ts[1..], e);
      i := k + 1;
      forall j | 0 <= j < i ensures !Holds(ts[j].guard, e) {
        if j > 0 { assert ts[1..][j - 1] == ts[j]; }
      }
    }
  }

  /** Every state but the last ends its transitions with an unconditional one, and all go down in rank. */
  lemma Declared(s: StateId)
    requires s != Terminal
    ensures var ts := Transitions(s);
      ts != [] && ts[|ts| - 1].guard == Always && forall i :: 0 <= i < |ts| ==> Rank(ts[i].to) < Rank(s)
  {
  }

  /** The state a position leaves for when its loop, if any, is over. */
  lemma Leaves(p: Position, e: Env) returns (t: Transition)
    requires p.state != Terminal && !LoopContinues(p, e)
    ensures t in Transitions(p.state) && Holds(t.guard, e)
    ensures Advance(p, e) == Position(t.to, 1) && Rank(t.to) < Rank(p.state)
  {
    Declared(p.state);
    var i := FirstMatchTaken(Transitions(p.state), e);
    t := Transitions(p.state)[i];
  }

  lemma AdvanceDescends(p: Position, e: Env)
    requires p.state != Terminal && p.iteration <= MAX_ITERATIONS
    ensures Budget(Advance(p, e)) < Budget(p) && Advance(p, e).iteration <= MAX_ITERATIONS
    ensures Rank(Advance(p, e).state) < Rank(p.state) || (p.state == DispatchSpecialists == Advance(p, e).state)
  {
    if !LoopContinues(p, e) {
      var t := Leaves(p, e);
    }
  }

  /** On its way with steps to spare. */
  ghost predicate OnItsWay(p: Position, i: nat) {
    i + Budget(p) <= LONGEST_RUN && p.iteration <= MAX_ITERATIONS
  }

  lemma StaysOnItsWay(p: Position, e: Env, i: nat)
    requires p.state != Terminal && OnItsWay(p, i)
    ensures i < LONGEST_RUN && OnItsWay(Advance(p, e), i + 1)
  {
    AdvanceDescends(p, e);
  }

  /** Tool discovery alone may give up, and nothing may be refused. */
  predicate Survivable(s: StateId, t: Trouble) {
    t == NoTrouble || (t == GaveUp && s == ToolDiscovery)
  }

  ghost predicate Unhurt(envs: nat -> Env, troubles: nat -> Trouble, n: nat) {
    forall k: nat :: k < n ==> Survivable(At(envs, k).state, troubles(k))
  }

  /** A run stops at its first fault or on arrival, and is never cut short by the step limit. */
  method RunReview(envs: nat -> Env, troubles: nat -> Trouble) returns (outcome: Outcome, steps: nat)
    ensures TakesAll(envs, troubles, steps) && steps <= 78
    ensures outcome == if At(envs, steps).state == Terminal then Completed else Faulted(At(envs, steps).state)
    ensures outcome.Faulted? ==> !Survivable(outcome.at, troubles(steps))
    ensures Unhurt(envs, troubles, steps)
  {
    var p := ENTRY;
    outcome, steps := MaxStepsExceeded, 0;
    for i := 0 to MAX_STEPS
      invariant p == At(envs, i) && TakesAll(envs, troubles, i)
      invariant Unhurt(envs, troubles, i)
      invariant OnItsWay(p, i) && i <= LONGEST_RUN
    {
      if p.state == Terminal {
        return Completed, i;
      }
      if Stops(p.state, troubles(i)) {
        return Faulted(p.state), i;
      }
      TakesOneMore(envs, troubles, i);
      StaysOnItsWay(p, envs(i), i);
      p := Advance(p, envs(i));
    }
    assert false;
  }

  // ---- what a run passes through -----------------------------------------------------------

  function Visits(envs: nat -> Env, s: StateId, k: nat): nat {
    if k == 0 then 0 else Visits(envs, s, k - 1) + if At(envs, k - 1).state == s then 1 else 0
  }

  ghost predicate Underway(envs: nat -> Env, j: nat) { At(envs, j).state != Terminal }

  /** A run that has not arrived before step `k`. */
  ghost predicate Going(envs: nat -> Env, k: nat) {
    forall j: nat :: j < k ==> Underway(envs, j)
  }

  lemma {:induction false} IterationBounded(envs: nat -> Env, k: nat)
    requires Going(envs, k)
    ensures At(envs, k).iteration <= MAX_ITERATIONS
  {
    if k == 0 {
    } else {
      assert Underway(envs, k - 1);
      IterationBounded(envs, k - 1);
      AdvanceDescends(At(envs, k - 1), envs(k - 1));
    }
  }

  lemma StepDescends(envs: nat -> Env, k: nat)
    requires k > 0 && Going(envs, k)
    ensures Rank(At(envs, k).state) < Rank(At(envs, k - 1).state)
      || At(envs, k).state == At(envs, k - 1).state == DispatchSpecialists
  {
    assert Underway(envs, k - 1);
    IterationBounded(envs, k - 1);
    AdvanceDescends(At(envs, k - 1), envs(k - 1));
  }

  lemma VisitsStep(envs: nat -> Env, s: StateId, k: nat)
    requires k > 0
    ensures Visits(envs, s, k) == Visits(envs, s, k - 1) + if At(envs, k - 1).state == s then 1 else 0
  {
  }

  lemma {:induction false} VisitsGrow(envs: nat -> Env, s: StateId, j: nat, k: nat)
    requires j <= k
    ensures Visits(envs, s, j) <= Visits(envs, s, k)
  {
    forall i: nat | i < k ensures Visits(envs, s, i) <= Visits(envs, s, i + 1) {
      VisitsStep(envs, s, i + 1);
    }
    Climbs((i: nat) => Visits(envs, s, i), j, k);
  }

  lemma GoingBefore(envs: nat -> Env, j: nat, k: nat)
    requires Going(envs, k) && j <= k
    ensures Going(envs, j)
  {
  }

  /** Left behind: visited at most once, and if so the run is below it. */
  ghost predicate Passed(visits: nat, rank: nat, own: nat) {
    visits <= 1 && (visits == 1 ==> rank < own)
  }

  /** Ranks only fall, so no state but the loop is ever visited twice. */
  lemma {:induction false} NeverReturns(envs: nat -> Env, s: StateId, k: nat)
    requires Going(envs, k) && s != DispatchSpecialists
    ensures Visits(envs, s, k) <= 1
    ensures Visits(envs, s, k) == 1 ==> Rank(At(envs, k).state) < Rank(s)
  {
    var passed := (i: nat) => Passed(Visits(envs, s, i), Rank(At(envs, i).state), Rank(s));
    forall i: nat | i < k ensures PassesOn(passed, i) {
      GoingBefore(envs, i + 1, k);
      StepDescends(envs, i + 1);
      VisitsStep(envs, s, i + 1);
    }
    Induct(passed, k);
  }

  predicate Follows(s: StateId, t: StateId) {
    exists i :: 0 <= i < |Transitions(s)| && Transitions(s)[i].to == t
  }

  lemma StepFollows(envs: nat -> Env, k: nat)
    requires k > 0 && Going(envs, k)
    ensures At(envs, k).state == At(envs, k - 1).state == DispatchSpecialists
      || Follows(At(envs, k - 1).state, At(envs, k).state)
  {
    var p, e := At(envs, k - 1), envs(k - 1);
    assert Underway(envs, k - 1);
    if !LoopContinues(p, e) {
      var t := Leaves(p, e);
      var i :| 0 <= i < |Transitions(p.state)| && Transitions(p.state)[i] == t;
    }
  }

  lemma OnlyWayIn(s: StateId, t: StateId)
    requires Follows(s, t)
    ensures t == Terminal ==> s == EmitStdout
    ensures t == EmitStdout ==> s == WriteRunDirectory
    ensures t == VerifyCoverage ==> s == RankFindings
    ensures t == RankFindings ==> s == CollectFindings
    ensures t == CollectFindings ==> s == MergeSpecialistOutputs
    ensures t != ScanProject
  {
    var i :| 0 <= i < |Transitions(s)| && Transitions(s)[i].to == t;
    assert i < 3;
  }

  lemma CameFrom(envs: nat -> Env, k: nat)
    requires Going(envs, k) && At(envs, k).state !in {ScanProject, DispatchSpecialists}
    ensures k > 0 && Follows(At(envs, k - 1).state, At(envs, k).state)
    ensures Visits(envs, At(envs, k - 1).state, k) >= 1
  {
    StepFollows(envs, k);
  }

  /** A run that arrives has written the run directory and then printed the report, each exactly once. */
  lemma ReportWrittenOnce(envs: nat -> Env, k: nat)
    requires Going(envs, k) && At(envs, k).state == Terminal
    ensures k >= 2 && At(envs, k - 2).state == WriteRunDirectory && At(envs, k - 1).state == EmitStdout
    ensures Visits(envs, WriteRunDirectory, k) == 1 && Visits(envs, EmitStdout, k) == 1
  {
    CameFrom(envs, k);
    OnlyWayIn(At(envs, k - 1).state, Terminal);
    CameFrom(envs, k - 1);
    OnlyWayIn(At(envs, k - 2).state, EmitStdout);
    NeverReturns(envs, WriteRunDirectory, k);
    NeverReturns(envs, EmitStdout, k);
  }

  const ENDINGS := {VerifyCoverage, VerifierStuck, ShortCircuitExit, StageAEmpty}

  function Endings(envs: nat -> Env, k: nat): nat {
    Visits(envs, VerifyCoverage, k) + Visits(envs, VerifierStuck, k)
    + Visits(envs, ShortCircuitExit, k) + Visits(envs, StageAEmpty, k)
  }

  lemma EndingsRank(s: StateId)
    ensures Rank(s) == 4 <==> s in ENDINGS
  {
  }

  lemma EndingsReached(s: StateId, t: StateId)
    requires Follows(s, t) && Rank(s) > 4
    ensures Rank(t) >= 4
  {
    var i :| 0 <= i < |Transitions(s)| && Transitions(s)[i].to == t;
    assert i < 3;
  }

  lemma EndingsStep(envs: nat -> Env, k: nat)
    requires k > 0
    ensures Endings(envs, k) == Endings(envs, k - 1) + if Rank(At(envs, k - 1).state) == 4 then 1 else 0
  {
    EndingsRank(At(envs, k - 1).state);
  }

  lemma RankStep(envs: nat -> Env, k: nat)
    requires k > 0 && Going(envs, k)
    ensures var a, b := Rank(At(envs, k - 1).state), Rank(At(envs, k).state);
      (b < a || a == b == 8) && (a > 4 ==> b >= 4)
  {
    StepDescends(envs, k);
    StepFollows(envs, k);
    var was, now := At(envs, k - 1).state, At(envs, k).state;
    if Follows(was, now) && Rank(was) > 4 {
      EndingsReached(was, now);
    }
  }

  ghost predicate EndingsTracked(rank: nat, endings: nat) { endings == if rank >= 4 then 0 else 1 }

  lemma TrackStep(a: nat, before: nat, b: nat, after: nat)
    requires EndingsTracked(a, before) && after == before + if a == 4 then 1 else 0
    requires (b < a || a == b == 8) && (a > 4 ==> b >= 4)
    ensures EndingsTracked(b, after)
  {
  }

  lemma {:induction false} EndingsCounted(envs: nat -> Env, k: nat)
    requires Going(envs, k)
    ensures EndingsTracked(Rank(At(envs, k).state), Endings(envs, k))
  {
    var tracked := (i: nat) => EndingsTracked(Rank(At(envs, i).state), Endings(envs, i));
    forall i: nat | i < k ensures PassesOn(tracked, i) {
      GoingBefore(envs, i + 1, k);
      EndingsStep(envs, i + 1);
      RankStep(envs, i + 1);
      if tracked(i) {
        TrackStep(Rank(At(envs, i).state), Endings(envs, i), Rank(At(envs, i + 1).state), Endings(envs, i + 1));
      }
    }
    Induct(tracked, k);
  }

  /** A run that arrives has had exactly one of four endings: coverage verified, a verifier impasse,
      a trivial diff, or nothing to review. In particular coverage is never verified after an impasse. */
  lemma ExactlyOneEnding(envs: nat -> Env, k: nat)
    requires Going(envs, k) && At(envs, k).state == Terminal
    ensures Endings(envs, k) == 1
  {
    EndingsCounted(envs, k);
  }

  /** Coverage is only ever verified on merged, collected and ranked findings. */
  lemma CoverageFollowsRanking(envs: nat -> Env, k: nat)
    requires Going(envs, k) && At(envs, k).state == VerifyCoverage
    ensures k >= 3 && At(envs, k - 1).state == RankFindings && At(envs, k - 2).state == CollectFindings
      && At(envs, k - 3).state == MergeSpecialistOutputs
  {
    CameFrom(envs, k);
    OnlyWayIn(At(envs, k - 1).state, VerifyCoverage);
    CameFrom(envs, k - 1);
    OnlyWayIn(At(envs, k - 2).state, RankFindings);
    CameFrom(envs, k - 2);
    OnlyWayIn(At(envs, k - 3).state, CollectFindings);
  }

  // ---- the loop ----------------------------------------------------------------------------

  ghost predicate Plans(envs: nat -> Env, n: nat) {
    forall k: nat :: envs(k).totalBatches == n
  }

  const AFTER_LOOP := {MergeSpecialistOutputs, CollectFindings, RankFindings, VerifyCoverage}

  /** While the loop runs its iteration counts its visits; once left, it has drained the plan, and what
      follows it on the way to coverage has it behind. */
  ghost predicate LoopTracked(p: Position, visits: nat, n: nat) {
    if p.state == DispatchSpecialists then 1 <= p.iteration == visits + 1 <= Min(n, MAX_ITERATIONS)
    else if Rank(p.state) > Rank(DispatchSpecialists) then visits == 0
    else visits == Min(n, MAX_ITERATIONS) || (visits == 0 && p.state !in AFTER_LOOP)
  }

  lemma LoopStep(p: Position, e: Env, visits: nat, n: nat)
    requires p.state != Terminal && e.totalBatches == n >= 1 && LoopTracked(p, visits, n)
    ensures LoopTracked(Advance(p, e), visits + if p.state == DispatchSpecialists then 1 else 0, n)
  {
    if !LoopContinues(p, e) {
      var t := Leaves(p, e);
    }
  }

  lemma LoopProgressStep(envs: nat -> Env, n: nat, i: nat)
    requires Underway(envs, i) && Plans(envs, n) && n >= 1
    requires LoopTracked(At(envs, i), Visits(envs, DispatchSpecialists, i), n)
    ensures LoopTracked(At(envs, i + 1), Visits(envs, DispatchSpecialists, i + 1), n)
  {
    VisitsStep(envs, DispatchSpecialists, i + 1);
    LoopStep(At(envs, i), envs(i), Visits(envs, DispatchSpecialists, i), n);
  }

  lemma {:induction false} LoopProgress(envs: nat -> Env, n: nat, k: nat)
    requires Going(envs, k) && Plans(envs, n) && n >= 1
    ensures LoopTracked(At(envs, k), Visits(envs, DispatchSpecialists, k), n)
  {
    var tracked := (i: nat) => LoopTracked(At(envs, i), Visits(envs, DispatchSpecialists, i), n);
    forall i: nat | i < k ensures PassesOn(tracked, i) {
      assert Underway(envs, i);
      if tracked(i) {
        LoopProgressStep(envs, n, i);
      }
    }
    Induct(tracked, k);
  }

  /** A run that enters the dispatch loop stays for one iteration per planned batch, up to the cap;
      and one that verifies coverage went through it. */
  lemma LoopDrainsPlan(envs: nat -> Env, n: nat, k: nat)
    requires Going(envs, k) && Plans(envs, n) && n >= 1
    ensures At(envs, k).state == Terminal ==> Visits(envs, DispatchSpecialists, k) in {0, Min(n, MAX_ITERATIONS)}
    ensures At(envs, k).state == VerifyCoverage ==> Visits(envs, DispatchSpecialists, k) == Min(n, MAX_ITERATIONS)
  {
    LoopProgress(envs, n, k);
  }
}
