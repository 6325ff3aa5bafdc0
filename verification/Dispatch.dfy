/** The retry loops that call the model: one specialist unit, and one worker state. The hooks answer
    however they like; each method proves that what it did is one valid call tree (or one log). */
module Dispatch {
  import opened Util
  import opened Findings
  import opened CallTree
  import opened Limiter
  import opened TreeAccount

  /** What one call of the specialist hook can do. */
  datatype Reply = Answered(answer: Answer) | RateLimit | Overflow | Failure(kind: string)

  /** What one call of the worker hook can do; `Raised` is any exception the retry loop lets through. */
  datatype WorkerReply = Returned(outputs: string) | WorkerRateLimit | WorkerOverflow | Raised(kind: string)

  /** The run-wide counters every thread updates under the stats lock. */
  class RunnerStats {
    var dispatched: int
    var failed: int
    var retries: int
    var rateLimitEvents: int
    var overflowSplits: int
    var totalInTokens: int
    var totalOutTokens: int
    var totalCostUsd: real
    var totalEstCost: real

    function Value(c: Counter): int
      reads this
    {
      match c
      case Dispatched => dispatched
      case FailedUnits => failed
      case Retries => retries
      case RateLimitEvents => rateLimitEvents
      case OverflowSplits => overflowSplits
    }

    function TokenTotal(m: TokenMeter): int
      reads this
    {
      if m.TokensIn? then totalInTokens else totalOutTokens
    }

    function CostTotal(m: CostMeter): real
      reads this
    {
      if m.CostUsd? then totalCostUsd else totalEstCost
    }

    /** Every token and cost total at once. */
    function Spent(): (int, int, real, real)
      reads this
    {
      (totalInTokens, totalOutTokens, totalCostUsd, totalEstCost)
    }

    constructor ()
      ensures forall c :: Value(c) == 0
      ensures (forall m :: TokenTotal(m) == 0) && (forall m :: CostTotal(m) == 0.0)
    {
      dispatched, failed, retries, rateLimitEvents, overflowSplits := 0, 0, 0, 0, 0;
      totalInTokens, totalOutTokens, totalCostUsd, totalEstCost := 0, 0, 0.0, 0.0;
    }

    method Bump(c: Counter)
      modifies this
      ensures forall d :: Value(d) == old(Value(d)) + (if d == c then 1 else 0)
      ensures Spent() == old(Spent())
    {
      match c
      case Dispatched => dispatched := dispatched + 1;
      case FailedUnits => failed := failed + 1;
      case Retries => retries := retries + 1;
      case RateLimitEvents => rateLimitEvents := rateLimitEvents + 1;
      case OverflowSplits => overflowSplits := overflowSplits + 1;
    }

    /** Folds one output's stamp into the totals; an absent key contributes nothing. */
    method AccumulateCost(s: Stamp)
      modifies this
      ensures forall d :: Value(d) == old(Value(d))
      ensures forall m :: TokenTotal(m) == old(TokenTotal(m)) + TokensOf(s, m)
      ensures forall m :: CostTotal(m) == old(CostTotal(m)) + CostOf(s, m)
    {
      if TokensIn in s.tokens { totalInTokens := totalInTokens + s.tokens[TokensIn]; }
      if TokensOut in s.tokens { totalOutTokens := totalOutTokens + s.tokens[TokensOut]; }
      if CostUsd in s.costs { totalCostUsd := totalCostUsd + s.costs[CostUsd]; }
      if EstCost in s.costs { totalEstCost := totalEstCost + s.costs[EstCost]; }
    }
  }

  /** The injected callables: replies are arbitrary, and the ghost meters count what was asked of them. */
  class Hooks {
    ghost var calls: nat
    ghost var slept: real

    constructor ()
      ensures calls == 0 && slept == 0.0
    {
      calls, slept := 0, 0.0;
    }

    method DispatchSpecialist(unit: ReviewUnit) returns (reply: Reply)
      modifies this
      ensures calls == old(calls) + 1 && slept == old(slept)
    {
      calls := calls + 1;
      reply := *;
    }

    method DispatchWorker(stateId: string, inputs: string) returns (reply: WorkerReply)
      modifies this
      ensures calls == old(calls) + 1 && slept == old(slept)
    {
      calls := calls + 1;
      reply := *;
    }

    method Sleep(seconds: real)
      modifies this
      ensures calls == old(calls) && slept == old(slept) + seconds
    {
      slept := slept + seconds;
    }
  }

  predicate IsFault(r: Reply) { r.RateLimit? || r.Failure? }

  function AsFault(r: Reply): Fault
    requires IsFault(r)
  {
    if r.RateLimit? then RateLimited else Crashed(r.kind)
  }

  // ---- what a unit does to the limiter -----------------------------------------------------

  function AfterFaults(p: Permits, faults: seq<Fault>): Permits {
    var n := |faults| - 1;
    if n < 0 then p
    else if faults[n].RateLimited? then Penalized(AfterFaults(p, faults[..n]))
    else AfterFaults(p, faults[..n])
  }

  /** The limiter a unit leaves behind when it runs alone. */
  function AfterTree(p: Permits, t: Tree): Permits
    decreases t
  {
    var q := AfterFaults(p, t.faults);
    match t
    case Served(_, _, _) => Rewarded(q)
    case Split(_, _, l, r) => AfterTree(AfterTree(q, l), r)
    case _ => q
  }

  function FaultAdjustments(faults: seq<Fault>): seq<Adjustment> {
    var n := |faults| - 1;
    if n < 0 then [] else FaultAdjustments(faults[..n]) + if faults[n].RateLimited? then [Penalty] else []
  }

  /** A penalty for every rate limit and a reward for every success, in the order they happen. */
  function Adjustments(t: Tree): seq<Adjustment> {
    FaultAdjustments(t.faults)
    + match t
      case Served(_, _, _) => [Reward]
      case Split(_, _, l, r) => Adjustments(l) + Adjustments(r)
      case _ => []
  }

  lemma {:induction false} AdjustAppend(p: Permits, a: seq<Adjustment>, b: seq<Adjustment>)
    ensures AdjustAll(p, a + b) == AdjustAll(AdjustAll(p, a), b)
  {
    if b == [] {
      assert a + b == a;
    } else {
      var n := |b| - 1;
      AdjustAppend(p, a, b[..n]);
      assert (a + b)[..|a| + n] == a + b[..n];
    }
  }

  lemma AdjustOnce(p: Permits, a: seq<Adjustment>, x: Adjustment)
    ensures AdjustAll(p, a + [x]) == Adjust(AdjustAll(p, a), x)
  {
    assert (a + [x])[..|a|] == a;
  }

  lemma {:induction false} FaultHistory(p: Permits, faults: seq<Fault>)
    ensures AfterFaults(p, faults) == AdjustAll(p, FaultAdjustments(faults))
  {
    if faults == [] {
    } else {
      var n := |faults| - 1;
      FaultHistory(p, faults[..n]);
      AdjustOnce(p, FaultAdjustments(faults[..n]), Penalty);
      assert FaultAdjustments(faults[..n]) + [] == FaultAdjustments(faults[..n]);
    }
  }

  /** The limiter a unit leaves behind depends on its penalties and rewards alone, so all that holds of
      every history of adjustments holds of it. */
  lemma {:induction false} TreeHistory(p: Permits, t: Tree)
    ensures AfterTree(p, t) == AdjustAll(p, Adjustments(t))
    decreases t
  {
    FaultHistory(p, t.faults);
    var fs := FaultAdjustments(t.faults);
    match t
    case Served(_, _, _) => AdjustOnce(p, fs, Reward);
    case Split(_, _, l, r) =>
      var q := AfterFaults(p, t.faults);
      TreeHistory(q, l);
      TreeHistory(AfterTree(q, l), r);
      AdjustAppend(q, Adjustments(l), Adjustments(r));
      AdjustAppend(p, fs, Adjustments(l) + Adjustments(r));
    case _ => assert fs + [] == fs;
  }

  // ---- one unit ----------------------------------------------------------------------------

  /** One call under one permit; the permit is back before the reply is looked at. */
  method CallUnderPermit(unit: ReviewUnit, hooks: Hooks, limiter: AdaptiveLimiter) returns (reply: Reply)
    requires Sound(limiter.View()) && limiter.inflight == 0
    modifies hooks, limiter
    ensures limiter.View() == old(limiter.View())
    ensures hooks.calls == old(hooks.calls) + 1 && hooks.slept == old(hooks.slept)
  {
    var granted := limiter.TryAcquire();
    assert granted;
    reply := hooks.DispatchSpecialist(unit);
    limiter.Release();
  }

  /** A rate limit shrinks the pool; any retryable fault counts as a retry. */
  method RecordFault(fault: Fault, limiter: AdaptiveLimiter, stats: RunnerStats)
    requires Sound(limiter.View())
    modifies limiter, stats
    ensures limiter.View() == if fault.RateLimited? then Penalized(old(limiter.View())) else old(limiter.View())
    ensures Sound(limiter.View())
    ensures forall c :: stats.Value(c) == old(stats.Value(c))
              + (if c.Retries? || (c.RateLimitEvents? && fault.RateLimited?) then 1 else 0)
    ensures stats.Spent() == old(stats.Spent())
  {
    if fault.RateLimited? {
      stats.Bump(RateLimitEvents);
      limiter.Penalize();
    }
    stats.Bump(Retries);
  }

  /** A success grows the pool and is charged to the run totals. */
  method RecordSuccess(answer: Answer, limiter: AdaptiveLimiter, stats: RunnerStats)
    requires Sound(limiter.View())
    modifies limiter, stats
    ensures limiter.View() == Rewarded(old(limiter.View())) && Sound(limiter.View())
    ensures forall c :: stats.Value(c) == old(stats.Value(c)) + (if c.Dispatched? then 1 else 0)
    ensures forall m :: stats.TokenTotal(m) == old(stats.TokenTotal(m)) + TokensOf(answer.stamp, m)
    ensures forall m :: stats.CostTotal(m) == old(stats.CostTotal(m)) + CostOf(answer.stamp, m)
  {
    limiter.Reward();
    stats.Bump(Dispatched);
    stats.AccumulateCost(answer.stamp);
  }

  /** The retry loop of one unit: it leaves on an answer, on an overflow, or with the budget spent. */
  method RetryFaults(unit: ReviewUnit, hooks: Hooks, limiter: AdaptiveLimiter, stats: RunnerStats,
                     maxRetries: nat, baseBackoff: real)
    returns (reply: Reply, ghost faults: seq<Fault>)
    requires Sound(limiter.View()) && limiter.inflight == 0
    modifies hooks, limiter, stats
    ensures Sound(limiter.View()) && limiter.inflight == 0
    ensures limiter.View() == AfterFaults(old(limiter.View()), faults)
    ensures if IsFault(reply) then |faults| == maxRetries + 1 && faults[maxRetries] == AsFault(reply)
            else |faults| <= maxRetries
    ensures forall c :: stats.Value(c) == old(stats.Value(c)) + FaultCount(faults, c)
    ensures stats.Spent() == old(stats.Spent())
    ensures hooks.calls == old(hooks.calls) + |faults| + (if IsFault(reply) then 0 else 1)
    ensures hooks.slept == old(hooks.slept) + Backoff(baseBackoff, Min(|faults|, maxRetries))
  {
    var attempt := 0;
    faults := [];
    while true
      invariant |faults| == attempt <= maxRetries
      invariant Sound(limiter.View()) && limiter.inflight == 0
      invariant limiter.View() == AfterFaults(old(limiter.View()), faults)
      invariant forall c :: stats.Value(c) == old(stats.Value(c)) + FaultCount(faults, c)
      invariant stats.Spent() == old(stats.Spent())
      invariant hooks.calls == old(hooks.calls) + attempt
      invariant hooks.slept == old(hooks.slept) + Backoff(baseBackoff, attempt)
      decreases maxRetries - attempt
    {
      reply := CallUnderPermit(unit, hooks, limiter);
      if !IsFault(reply) {
        return;
      }
      RecordFault(AsFault(reply), limiter, stats);
      assert (faults + [AsFault(reply)])[..|faults|] == faults;
      faults := faults + [AsFault(reply)];
      attempt := attempt + 1;
      if attempt > maxRetries {
        return;
      }
      hooks.Sleep(baseBackoff * (Pow2(attempt - 1) as real));
    }
  }

  lemma SleptUnfold(t: Tree, retries: nat, base: real)
    requires Valid(t, retries)
    ensures Slept(t, base) == Backoff(base, Min(|t.faults|, retries))
                              + if t.Split? then Slept(t.left, base) + Slept(t.right, base) else 0.0
  {
  }

  /** The end of a unit that is not split: served, given up, or a single file too big. */
  method EndUnit(unit: ReviewUnit, reply: Reply, limiter: AdaptiveLimiter, stats: RunnerStats, maxRetries: nat,
                 ghost faults: seq<Fault>)
    returns (out: SpecialistOutput, ghost tree: Tree)
    requires Sound(limiter.View()) && (reply.Overflow? ==> Halves(unit).None?)
    requires if IsFault(reply) then |faults| == maxRetries + 1 && faults[maxRetries] == AsFault(reply)
             else |faults| <= maxRetries
    modifies limiter, stats
    ensures Sound(limiter.View())
    ensures limiter.View() == if reply.Answered? then Rewarded(old(limiter.View())) else old(limiter.View())
    ensures !tree.Split? && (tree.Served? <==> reply.Answered?) && tree.faults == faults && tree.unit == unit
    ensures Valid(tree, maxRetries) && out == Output(tree, maxRetries)
    ensures Calls(tree) == |faults| + if IsFault(reply) then 0 else 1
    ensures forall c :: stats.Value(c) == old(stats.Value(c)) + (if c == EndCounter(tree) then 1 else 0)
    ensures forall m :: stats.TokenTotal(m) == old(stats.TokenTotal(m)) + Tokens(tree, m)
    ensures forall m :: stats.CostTotal(m) == old(stats.CostTotal(m)) + Cost(tree, m)
  {
    match reply {
      case Answered(answer) =>
        RecordSuccess(answer, limiter, stats);
        tree := Served(unit, faults, answer);
        out := Filled(answer, unit.leafId);
      case Overflow =>
        stats.Bump(FailedUnits);
        tree := TooBig(unit, faults);
        out := FailedOutput(unit.leafId, TOO_BIG_REASON);
      case _ =>
        stats.Bump(FailedUnits);
        tree := GaveUp(unit, faults);
        out := FailedOutput(unit.leafId, GiveUpReason(AsFault(reply)));
    }
  }

  /** The overflow branch: both halves in order, their findings and stamps joined under the leaf's id. */
  method DispatchHalves(unit: ReviewUnit, hooks: Hooks, limiter: AdaptiveLimiter, stats: RunnerStats,
                        maxRetries: nat, baseBackoff: real)
    returns (out: SpecialistOutput, ghost left: Tree, ghost right: Tree)
    requires Sound(limiter.View()) && limiter.inflight == 0
    requires Halves(unit).Some?
    modifies hooks, limiter, stats
    ensures Sound(limiter.View()) && limiter.inflight == 0
    ensures limiter.View() == AfterTree(AfterTree(old(limiter.View()), left), right)
    ensures Valid(left, maxRetries) && Valid(right, maxRetries) && Halves(unit) == Some((left.unit, right.unit))
    ensures out == Output(Split(unit, [], left, right), maxRetries)
    ensures forall c :: stats.Value(c) == old(stats.Value(c)) + Count(left, c) + Count(right, c)
    ensures forall m :: stats.TokenTotal(m) == old(stats.TokenTotal(m)) + Tokens(left, m) + Tokens(right, m)
    ensures forall m :: stats.CostTotal(m) == old(stats.CostTotal(m)) + Cost(left, m) + Cost(right, m)
    ensures hooks.calls == old(hooks.calls) + Calls(left) + Calls(right)
    ensures hooks.slept == old(hooks.slept) + Slept(left, baseBackoff) + Slept(right, baseBackoff)
    decreases |unit.files|, 0
  {
    var halves := Halves(unit).value;
    var a, b;
    a, left := DispatchOne(halves.0, hooks, limiter, stats, maxRetries, baseBackoff);
    b, right := DispatchOne(halves.1, hooks, limiter, stats, maxRetries, baseBackoff);
    out := SpecialistOutput(unit.leafId, Completed, a.findings + b.findings, None, SumStamps([a.stamp, b.stamp]));
  }

  /** Dispatches one unit to its end: retries with back-off, halves it on overflow, never raises.
      Run alone, it holds no permit whenever it sleeps or recurses, and its answers fix the limit it
      leaves behind. */
  method DispatchOne(unit: ReviewUnit, hooks: Hooks, limiter: AdaptiveLimiter, stats: RunnerStats,
                     maxRetries: nat, baseBackoff: real)
    returns (out: SpecialistOutput, ghost tree: Tree)
    requires Sound(limiter.View()) && limiter.inflight == 0
    modifies hooks, limiter, stats
    ensures Sound(limiter.View()) && limiter.inflight == 0
    ensures limiter.View() == AfterTree(old(limiter.View()), tree)
    ensures Valid(tree, maxRetries) && tree.unit == unit && out == Output(tree, maxRetries) && Accounts(tree, out)
    ensures forall c :: stats.Value(c) == old(stats.Value(c)) + Count(tree, c)
    ensures forall m :: stats.TokenTotal(m) == old(stats.TokenTotal(m)) + Tokens(tree, m)
    ensures forall m :: stats.CostTotal(m) == old(stats.CostTotal(m)) + Cost(tree, m)
    ensures hooks.calls == old(hooks.calls) + Calls(tree)
    ensures hooks.slept == old(hooks.slept) + Slept(tree, baseBackoff)
    decreases |unit.files|, 1
  {
    var reply;
    ghost var faults;
    reply, faults := RetryFaults(unit, hooks, limiter, stats, maxRetries, baseBackoff);
    if reply.Overflow? && Halves(unit).Some? {
      stats.Bump(OverflowSplits);
      ghost var left, right;
      out, left, right := DispatchHalves(unit, hooks, limiter, stats, maxRetries, baseBackoff);
      tree := Split(unit, faults, left, right);
    } else {
      out, tree := EndUnit(unit, reply, limiter, stats, maxRetries, faults);
    }
    SleptUnfold(tree, maxRetries, baseBackoff);
    OutputAccounts(tree, maxRetries);
  }

  // ---- one worker state --------------------------------------------------------------------

  predicate Retryable(r: WorkerReply) { r.WorkerRateLimit? || r.WorkerOverflow? }

  /** What one worker reply adds to a counter: overflows land in the same counter as unit splits. */
  function ReplyCount(r: WorkerReply, c: Counter): nat {
    if (c.RateLimitEvents? && r.WorkerRateLimit?) || (c.OverflowSplits? && r.WorkerOverflow?) then 1 else 0
  }

  method CallWorker(stateId: string, inputs: string, hooks: Hooks, stats: RunnerStats) returns (r: WorkerReply)
    modifies hooks, stats
    ensures forall c :: stats.Value(c) == old(stats.Value(c)) + ReplyCount(r, c)
    ensures hooks.calls == old(hooks.calls) + 1 && hooks.slept == old(hooks.slept)
  {
    r := hooks.DispatchWorker(stateId, inputs);
    if r.WorkerRateLimit? {
      stats.Bump(RateLimitEvents);
    } else if r.WorkerOverflow? {
      stats.Bump(OverflowSplits);
    }
  }

  function LogCount(log: seq<WorkerReply>, c: Counter): nat {
    if log == [] then 0 else LogCount(log[..|log| - 1], c) + ReplyCount(log[|log| - 1], c)
  }

  lemma {:induction false} BackoffMonotone(base: real, k: nat, n: nat)
    requires base >= 0.0 && k <= n
    ensures Backoff(base, k) <= Backoff(base, n)
  {
    if k == n {
    } else {
      BackoffMonotone(base, k, n - 1);
      RealMulMonotone(base, 0.0, Pow2(n - 1) as real);
    }
  }

  lemma WorkerSleepBound(base: real, k: nat, retries: nat)
    requires k <= retries
    ensures base >= 0.0 ==> Backoff(base, k) <= NodeBudget(base, retries)
    ensures NodeBudget(base, retries) == Backoff(base, retries)
  {
    BackoffClosedForm(base, retries);
    if base >= 0.0 {
      BackoffMonotone(base, k, retries);
    }
  }

  /** The counters a log moves are the rate limits and the overflows in it, one each. */
  lemma {:induction false} LogCountsReplies(log: seq<WorkerReply>)
    ensures LogCount(log, RateLimitEvents) == multiset(log)[WorkerRateLimit]
    ensures LogCount(log, OverflowSplits) == multiset(log)[WorkerOverflow]
    ensures forall c :: c !in {RateLimitEvents, OverflowSplits} ==> LogCount(log, c) == 0
  {
    if log == [] {
    } else {
      LogCountsReplies(log[..|log| - 1]);
      assert log == log[..|log| - 1] + [log[|log| - 1]];
    }
  }

  /** A worker call: `log` is every reply it saw. Only the last can be anything but retryable, a
      retryable last reply means the budget is spent, and it slept once between any two calls. */
  method CallWorkerResilient(stateId: string, inputs: string, hooks: Hooks, stats: RunnerStats,
                             maxRetries: nat, baseBackoff: real)
    returns (outcome: WorkerReply, ghost log: seq<WorkerReply>)
    modifies hooks, stats
    ensures 1 <= |log| <= maxRetries + 1 && outcome == log[|log| - 1]
    ensures forall k :: 0 <= k < |log| - 1 ==> log[k].WorkerRateLimit? || log[k].WorkerOverflow?
    ensures outcome.WorkerRateLimit? || outcome.WorkerOverflow? ==> |log| == maxRetries + 1
    ensures hooks.calls == old(hooks.calls) + |log|
    ensures hooks.slept == old(hooks.slept) + Backoff(baseBackoff, |log| - 1)
    ensures baseBackoff >= 0.0 ==> hooks.slept <= old(hooks.slept) + NodeBudget(baseBackoff, maxRetries)
    ensures forall c :: stats.Value(c) == old(stats.Value(c)) + LogCount(log, c)
  {
    var attempt := 0;
    log := [];
    while true
      invariant |log| == attempt <= maxRetries
      invariant forall k :: 0 <= k < |log| ==> Retryable(log[k])
      invariant hooks.calls == old(hooks.calls) + attempt
      invariant hooks.slept == old(hooks.slept) + Backoff(baseBackoff, attempt)
      invariant forall c :: stats.Value(c) == old(stats.Value(c)) + LogCount(log, c)
      decreases maxRetries - attempt
    {
      outcome := CallWorker(stateId, inputs, hooks, stats);
      assert (log + [outcome])[..|log|] == log;
      log := log + [outcome];
      if !Retryable(outcome) || attempt >= maxRetries {
        WorkerSleepBound(baseBackoff, attempt, maxRetries);
        return;
      }
      hooks.Sleep(baseBackoff * (Pow2(attempt) as real));
      attempt := attempt + 1;
    }
  }
}
