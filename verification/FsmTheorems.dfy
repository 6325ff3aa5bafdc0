/** Where a review goes, by what its workers and handlers leave in the run state: the answer of every
    branch, and exactly which reviews get as far as dispatching specialists. */
module FsmTheorems {
  import opened Util
  import opened Fsm

  /** The verifiers of this state refused three times. */
  predicate Rejected(s: StateId, e: Env) { s in e.rejections && e.rejections[s] >= 3 }

  predicate IsTrivial(e: Env) { e.tier == "trivial" && e.riskSignals == 0 && !e.scopeOverrides }

  lemma OneWay(a: Transition, e: Env)
    ensures FirstMatch([a], e) == if Holds(a.guard, e) then Some(a.to) else None
  {
    assert [a][1..] == [];
  }

  lemma TwoWays(a: Transition, b: Transition, e: Env)
    ensures FirstMatch([a, b], e) == if Holds(a.guard, e) then Some(a.to) else FirstMatch([b], e)
  {
    assert [a, b][1..] == [b];
  }

  lemma ThreeWays(a: Transition, b: Transition, c: Transition, e: Env)
    ensures FirstMatch([a, b, c], e) == if Holds(a.guard, e) then Some(a.to) else FirstMatch([b, c], e)
  {
    assert [a, b, c][1..] == [b, c];
  }

  lemma OneOrStuck(s: StateId, t: StateId, e: Env)
    ensures FirstMatch(Unless(s, t), e) == Some(if Rejected(s, e) then VerifierStuck else t)
  {
    TwoWays(Transition(VerifierStuck, RejectedThrice(s)), Transition(t, Always), e);
    OneWay(Transition(t, Always), e);
  }

  /** Where the states of the first stage lead. */
  lemma EarlyBranches(p: Position, e: Env)
    ensures var t := Advance(p, e).state;
      && (p.state == ScanProject ==> t == if Rejected(ScanProject, e) then VerifierStuck else RiskTierTriage)
      && (p.state == RiskTierTriage ==> t == if IsTrivial(e) then ShortCircuitExit else ActivateLeaves)
      && (p.state == ActivateLeaves ==> t == if e.activated == 0 then StageAEmpty else TreeDescend)
      && (p.state == TreeDescend ==>
            t == if Rejected(TreeDescend, e) then VerifierStuck else if e.candidates == 0 then StageAEmpty else LlmTrim)
      && (p.state == LlmTrim ==> t == if Rejected(LlmTrim, e) then VerifierStuck else ToolDiscovery)
  {
    match p.state
    case ScanProject => OneOrStuck(ScanProject, RiskTierTriage, e);
    case RiskTierTriage =>
      TwoWays(Transition(ShortCircuitExit, Trivial), Transition(ActivateLeaves, Always), e);
      OneWay(Transition(ActivateLeaves, Always), e);
    case ActivateLeaves =>
      TwoWays(Transition(StageAEmpty, NothingActivated), Transition(TreeDescend, Always), e);
      OneWay(Transition(TreeDescend, Always), e);
    case TreeDescend =>
      ThreeWays(Transition(VerifierStuck, RejectedThrice(TreeDescend)), Transition(StageAEmpty, NoCandidates),
                Transition(LlmTrim, Always), e);
      TwoWays(Transition(StageAEmpty, NoCandidates), Transition(LlmTrim, Always), e);
      OneWay(Transition(LlmTrim, Always), e);
    case LlmTrim => OneOrStuck(LlmTrim, ToolDiscovery, e);
    case _ =>
  }

  /** Where the states of the second stage lead; the loop state stays where it is while it is not through
      its batches and not at its cap of 64. */
  lemma LateBranches(p: Position, e: Env)
    ensures var t := Advance(p, e).state;
      && (p.state == ToolDiscovery ==> t == if Rejected(ToolDiscovery, e) then VerifierStuck else PlanSpecialistBatches)
      && (p.state == PlanSpecialistBatches ==>
            t == if e.totalBatches == 0 then MergeSpecialistOutputs else DispatchSpecialists)
      && (p.state == DispatchSpecialists ==>
            if p.iteration != e.totalBatches && p.iteration < 64
            then Advance(p, e) == Position(DispatchSpecialists, p.iteration + 1)
            else t == if Rejected(DispatchSpecialists, e) then VerifierStuck else MergeSpecialistOutputs)
      && (p.state == MergeSpecialistOutputs ==> t == CollectFindings)
      && (p.state == CollectFindings ==> t == RankFindings)
      && (p.state == RankFindings ==> t == if Rejected(RankFindings, e) then VerifierStuck else VerifyCoverage)
  {
    match p.state
    case ToolDiscovery => OneOrStuck(ToolDiscovery, PlanSpecialistBatches, e);
    case PlanSpecialistBatches =>
      TwoWays(Transition(MergeSpecialistOutputs, NothingPlanned), Transition(DispatchSpecialists, Always), e);
      OneWay(Transition(DispatchSpecialists, Always), e);
    case DispatchSpecialists => OneOrStuck(DispatchSpecialists, MergeSpecialistOutputs, e);
    case MergeSpecialistOutputs => OneWay(Transition(CollectFindings, Always), e);
    case CollectFindings => OneWay(Transition(RankFindings, Always), e);
    case RankFindings => OneOrStuck(RankFindings, VerifyCoverage, e);
    case _ =>
  }

  /** Where the endings lead: every one writes the directory, and only the two with findings to judge go
      through the gates. */
  lemma EndBranches(p: Position, e: Env)
    ensures var t := Advance(p, e).state;
      && (p.state in {VerifyCoverage, VerifierStuck} ==> t == SynthesizeReleaseReadiness)
      && (p.state in {ShortCircuitExit, StageAEmpty, SynthesizeReleaseReadiness} ==> t == WriteRunDirectory)
      && (p.state == WriteRunDirectory ==> t == EmitStdout)
      && (p.state == EmitStdout ==> t == Terminal)
  {
    match p.state
    case VerifyCoverage => OneWay(Transition(SynthesizeReleaseReadiness, Always), e);
    case VerifierStuck => OneWay(Transition(SynthesizeReleaseReadiness, Always), e);
    case ShortCircuitExit => OneWay(Transition(WriteRunDirectory, Always), e);
    case StageAEmpty => OneWay(Transition(WriteRunDirectory, Always), e);
    case SynthesizeReleaseReadiness => OneWay(Transition(WriteRunDirectory, Always), e);
    case WriteRunDirectory => OneWay(Transition(EmitStdout, Always), e);
    case EmitStdout => OneWay(Transition(Terminal, Always), e);
    case _ =>
  }

  // ---- how far a review gets ---------------------------------------------------------------

  /** An ending is never left again. */
  lemma Downhill(p: Position, e: Env)
    requires Rank(p.state) <= 4
    ensures Rank(Advance(p, e).state) <= 4
  {
    EndBranches(p, e);
  }

  /** A review is cut short exactly when the triage leaves a trivial diff without risk signals or scope
      overrides, and the scan before it was accepted. */
  lemma ShortCircuitIff(envs: nat -> Env)
    ensures At(envs, 2).state == ShortCircuitExit <==> !Rejected(ScanProject, envs(0)) && IsTrivial(envs(1))
  {
    EarlyBranches(At(envs, 0), envs(0));
    EarlyBranches(At(envs, 1), envs(1));
    EndBranches(At(envs, 1), envs(1));
  }

  /** The candidates are asked for when the diff is not trivial and something was activated. */
  predicate Descends(envs: nat -> Env) {
    !Rejected(ScanProject, envs(0)) && !IsTrivial(envs(1)) && envs(2).activated > 0
  }

  lemma DescendsIff(envs: nat -> Env)
    ensures At(envs, 3).state == TreeDescend <==> Descends(envs)
    ensures At(envs, 3).state == StageAEmpty <==>
      !Rejected(ScanProject, envs(0)) && !IsTrivial(envs(1)) && envs(2).activated == 0
    ensures !Descends(envs) ==> Rank(At(envs, 3).state) <= 4
  {
    ShortCircuitIff(envs);
    EarlyBranches(At(envs, 0), envs(0));
    EarlyBranches(At(envs, 1), envs(1));
    EarlyBranches(At(envs, 2), envs(2));
    EndBranches(At(envs, 1), envs(1));
    EndBranches(At(envs, 2), envs(2));
  }

  lemma NoCandidatesIff(envs: nat -> Env)
    ensures At(envs, 4).state == StageAEmpty <==>
      Descends(envs) && !Rejected(TreeDescend, envs(3)) && envs(3).candidates == 0
  {
    DescendsIff(envs);
    EarlyBranches(At(envs, 3), envs(3));
    EndBranches(At(envs, 3), envs(3));
  }

  /** Some candidate is left, and the descent was accepted. */
  predicate ReachesTrim(envs: nat -> Env) {
    Descends(envs) && !Rejected(TreeDescend, envs(3)) && envs(3).candidates > 0
  }

  /** The plan is made when some candidate is left and nobody refused thrice on the way. */
  predicate ReachesPlan(envs: nat -> Env) {
    ReachesTrim(envs) && !Rejected(LlmTrim, envs(4)) && !Rejected(ToolDiscovery, envs(5))
  }

  /** The step from `p` to `q` leads on to `t` from `s` when this is met, and otherwise to an ending. */
  predicate LeadsOn(p: Position, q: Position, s: StateId, t: StateId, met: bool) {
    (q.state == t <==> p.state == s && met) && (q.state == t || Rank(q.state) <= 4)
  }

  lemma TrimStep(p: Position, e: Env)
    requires p.state == TreeDescend || Rank(p.state) <= 4
    ensures LeadsOn(p, Advance(p, e), TreeDescend, LlmTrim, !Rejected(TreeDescend, e) && e.candidates > 0)
  {
    EarlyBranches(p, e);
    if p.state != TreeDescend {
      Downhill(p, e);
    }
  }

  lemma ToolsStep(p: Position, e: Env)
    requires p.state == LlmTrim || Rank(p.state) <= 4
    ensures LeadsOn(p, Advance(p, e), LlmTrim, ToolDiscovery, !Rejected(LlmTrim, e))
  {
    EarlyBranches(p, e);
    if p.state != LlmTrim {
      Downhill(p, e);
    }
  }

  lemma PlanStep(p: Position, e: Env)
    requires p.state == ToolDiscovery || Rank(p.state) <= 4
    ensures LeadsOn(p, Advance(p, e), ToolDiscovery, PlanSpecialistBatches, !Rejected(ToolDiscovery, e))
  {
    LateBranches(p, e);
    if p.state != ToolDiscovery {
      Downhill(p, e);
    }
  }

  lemma DispatchStep(p: Position, e: Env)
    requires p.state == PlanSpecialistBatches || Rank(p.state) <= 4
    ensures Advance(p, e).state == DispatchSpecialists <==> p.state == PlanSpecialistBatches && e.totalBatches > 0
    ensures Advance(p, e).iteration == 1
  {
    LateBranches(p, e);
    if p.state != PlanSpecialistBatches {
      Downhill(p, e);
    }
  }

  lemma ReachesPlanIff(envs: nat -> Env)
    ensures At(envs, 6).state == PlanSpecialistBatches <==> ReachesPlan(envs)
    ensures At(envs, 6).state == PlanSpecialistBatches || Rank(At(envs, 6).state) <= 4
  {
    DescendsIff(envs);
    TrimStep(At(envs, 3), envs(3));
    ToolsStep(At(envs, 4), envs(4));
    PlanStep(At(envs, 5), envs(5));
  }

  /** Specialists are dispatched, from the seventh step on and starting with the first batch, exactly
      when the diff is not trivial, some leaf was activated, some candidate left, some batch planned,
      and nobody refused thrice on the way. */
  lemma DispatchesIff(envs: nat -> Env)
    ensures At(envs, 0) == Position(ScanProject, 1)
    ensures At(envs, 7) == Position(DispatchSpecialists, 1) <==> ReachesPlan(envs) && envs(6).totalBatches > 0
    ensures At(envs, 7).state == DispatchSpecialists <==> ReachesPlan(envs) && envs(6).totalBatches > 0
  {
    ReachesPlanIff(envs);
    DispatchStep(At(envs, 6), envs(6));
  }
}
