/** Two things about whole runs of the pool: what its lowest-limit statistic reports, and that the
    calls in flight do come to exceed the limit in force. */
module PoolRuns {
  import opened Util
  import opened Findings
  import opened CallTree
  import opened Limiter
  import opened Pool
  import opened PoolProofs

  /** No statistic is left out of what is proved of the totals. */
  lemma EveryMetricCounts(m: Metric)
    ensures m in METRICS
  {
    match m
    case Counts(c) => match c { case Dispatched => case FailedUnits => case Retries => case _ => }
    case TokenSum(t) => match t { case TokensIn => case TokensOut => }
    case CostSum(c) => match c { case CostUsd => case EstCost => }
  }

  // ---- the lowest limit --------------------------------------------------------------------

  /** The least limit in force from `s` on, along the schedule. */
  ghost function LeastLimit(trees: seq<Tree>, s: State, schedule: seq<nat>): int
    requires Schedule(trees, s, schedule)
    decreases |schedule|
  {
    if schedule == [] then s.permits.limit
    else Min(s.permits.limit, LeastLimit(trees, Next(trees, s, schedule[0]), schedule[1..]))
  }

  /** Every step takes the limit it leaves behind into account. */
  lemma StatsMinStep(trees: seq<Tree>, s: State, w: nat)
    requires Sound(s.permits) && Enabled(trees, s, w)
    ensures var p, q := s.permits, Next(trees, s, w).permits; q.statsMin == Min(p.statsMin, q.limit)
  {
    if s.workers[w].Busy? && s.workers[w].task.phase.Settling? {
      SettlePermits(s, w, s.workers[w].task);
    }
  }

  lemma {:induction false} StatsMinAlong(trees: seq<Tree>, retries: nat, s: State, schedule: seq<nat>)
    requires Control(trees, retries, s) && Schedule(trees, s, schedule)
    ensures Run(trees, s, schedule).permits.statsMin == Min(s.permits.statsMin, LeastLimit(trees, s, schedule))
    decreases |schedule|
  {
    if schedule == [] {
    } else {
      StepKeepsControl(trees, retries, s, schedule[0]);
      StatsMinStep(trees, s, schedule[0]);
      StatsMinAlong(trees, retries, Next(trees, s, schedule[0]), schedule[1..]);
    }
  }

  lemma LeastBelowStart(trees: seq<Tree>, s: State, schedule: seq<nat>)
    requires Schedule(trees, s, schedule)
    ensures LeastLimit(trees, s, schedule) <= s.permits.limit
  {
  }

  /** After any schedule the reported minimum is the least limit that was in force during it, and the
      reported maximum is the configured one. */
  lemma StatsOfRun(trees: seq<Tree>, retries: nat, threads: nat, maxWorkers: int, minWorkers: int,
                   before: map<Metric, real>, schedule: seq<nat>)
    requires AllValid(trees, retries) && 1 <= maxWorkers && minWorkers <= maxWorkers
    requires Schedule(trees, Start(trees, threads, maxWorkers, minWorkers, before), schedule)
    ensures var start := Start(trees, threads, maxWorkers, minWorkers, before);
            && Run(trees, start, schedule).permits.statsMin == LeastLimit(trees, start, schedule)
            && Run(trees, start, schedule).permits.statsMax == maxWorkers
  {
    var start := Start(trees, threads, maxWorkers, minWorkers, before);
    StartWell(trees, retries, threads, maxWorkers, minWorkers, before);
    StatsMinAlong(trees, retries, start, schedule);
    RunKeepsInvariant(trees, retries, start, schedule, before);
    LeastBelowStart(trees, start, schedule);
  }

  // ---- more calls than the limit -----------------------------------------------------------

  lemma {:induction false} RunSnoc(trees: seq<Tree>, s: State, schedule: seq<nat>, w: nat)
    requires Schedule(trees, s, schedule) && Enabled(trees, Run(trees, s, schedule), w)
    ensures Schedule(trees, s, schedule + [w])
    ensures Run(trees, s, schedule + [w]) == Next(trees, Run(trees, s, schedule), w)
    decreases |schedule|
  {
    var longer := schedule + [w];
    if schedule == [] {
      assert longer[1..] == [];
    } else {
      RunSnoc(trees, Next(trees, s, schedule[0]), schedule[1..], w);
      assert longer[1..] == schedule[1..] + [w];
    }
  }

  function FirstTask(trees: seq<Tree>, i: nat, phase: Phase): Worker
    requires i < |trees|
  {
    Busy(Task(i, [], trees[i], 0, phase))
  }

  /** `n` threads, of which the first `picked` have taken a unit and the first `calling` are inside
      the hook. */
  function Crowd(trees: seq<Tree>, n: nat, picked: nat, calling: nat): (ws: seq<Worker>)
    requires calling <= picked <= n <= |trees|
    ensures |ws| == n
    ensures forall i :: 0 <= i < n ==>
      ws[i] == if i < calling then FirstTask(trees, i, Calling)
               else if i < picked then FirstTask(trees, i, Ready)
               else Idle
  {
    seq(n, i requires 0 <= i < n =>
      if i < calling then FirstTask(trees, i, Calling)
      else if i < picked then FirstTask(trees, i, Ready)
      else Idle)
  }

  function Crowded(trees: seq<Tree>, start: State, n: nat, picked: nat, calling: nat): State
    requires calling <= picked <= n <= |trees|
  {
    start.(permits := start.permits.(inflight := calling), workers := Crowd(trees, n, picked, calling), next := picked)
  }

  /** Every thread takes a unit. */
  lemma {:induction false} AllPick(trees: seq<Tree>, start: State, n: nat, k: nat) returns (schedule: seq<nat>)
    requires k <= n <= |trees| && start == Crowded(trees, start, n, 0, 0)
    ensures Schedule(trees, start, schedule) && Run(trees, start, schedule) == Crowded(trees, start, n, k, 0)
  {
    if k == 0 {
      schedule := [];
    } else {
      schedule := AllPick(trees, start, n, k - 1);
      var s, w := Crowded(trees, start, n, k - 1, 0), k - 1;
      RunSnoc(trees, start, schedule, w);
      assert s.workers[w := FirstTask(trees, w, Ready)] == Crowd(trees, n, k, 0);
      schedule := schedule + [w];
    }
  }

  /** Then every thread enters the hook, if the limit lets them all. */
  lemma {:induction false} AllEnter(trees: seq<Tree>, start: State, n: nat, k: nat) returns (schedule: seq<nat>)
    requires k <= n <= |trees| && start == Crowded(trees, start, n, 0, 0) && n <= start.permits.limit
    ensures Schedule(trees, start, schedule) && Run(trees, start, schedule) == Crowded(trees, start, n, n, k)
  {
    if k == 0 {
      schedule := AllPick(trees, start, n, n);
    } else {
      schedule := AllEnter(trees, start, n, k - 1);
      var s, w := Crowded(trees, start, n, n, k - 1), k - 1;
      RunSnoc(trees, start, schedule, w);
      assert s.workers[w := FirstTask(trees, w, Calling)] == Crowd(trees, n, n, k);
      schedule := schedule + [w];
    }
  }

  /** What the first thread's reply does, a rate limit, once its permit is back. */
  lemma FirstIsLimited(trees: seq<Tree>, s: State)
    requires s.workers != [] && |trees| > 0 && s.workers[0] == FirstTask(trees, 0, Settling)
    requires trees[0].faults != [] && trees[0].faults[0].RateLimited?
    ensures Enabled(trees, s, 0) && Next(trees, s, 0).permits == Penalized(s.permits)
  {
    SettlePermits(s, 0, s.workers[0].task);
  }

  lemma FirstReturns(trees: seq<Tree>, s: State)
    requires s.workers != [] && |trees| > 0 && s.workers[0] == FirstTask(trees, 0, Calling)
    ensures Enabled(trees, s, 0)
    ensures var r := Next(trees, s, 0);
      && r.workers != [] && Enabled(trees, r, 0)
      && var t := Next(trees, r, 0);
      && t.workers != [] && t.workers[0] == FirstTask(trees, 0, Settling)
      && t.permits == s.permits.(inflight := s.permits.inflight - 1)
  {
  }

  /** The calls in flight do exceed the limit: with a maximum of four or more and no higher minimum
      than half of it, let every thread enter the hook and the first come back rate-limited. With four,
      three calls are in flight under a limit of two. */
  lemma LimitOvertaken(trees: seq<Tree>, n: nat, minWorkers: int, before: map<Metric, real>)
      returns (schedule: seq<nat>)
    requires 4 <= n <= |trees| && minWorkers <= n / 2
    requires trees[0].faults != [] && trees[0].faults[0].RateLimited?
    ensures Schedule(trees, Start(trees, n, n, minWorkers, before), schedule)
    ensures var p := Run(trees, Start(trees, n, n, minWorkers, before), schedule).permits;
      p.inflight == n - 1 && p.limit == n / 2 && p.inflight > p.limit
  {
    var start := Start(trees, n, n, minWorkers, before);
    assert start.workers == Crowd(trees, n, 0, 0);
    schedule := AllEnter(trees, start, n, n);
    var s := Crowded(trees, start, n, n, n);
    FirstReturns(trees, s);
    RunSnoc(trees, start, schedule, 0);
    schedule := schedule + [0];
    RunSnoc(trees, start, schedule, 0);
    schedule := schedule + [0];
    FirstIsLimited(trees, Run(trees, start, schedule));
    RunSnoc(trees, start, schedule, 0);
    schedule := schedule + [0];
  }
}
