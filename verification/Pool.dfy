/** The thread pool, step by step. One step of a thread is at most one critical section of the
    limiter's condition plus the thread-local work that follows it; the scheduler picks any thread
    that can move. What each call answers is fixed beforehand as one call tree per unit, and since
    the trees are arbitrary valid ones the answers remain the adversary's. */
module Pool {
  import opened Util
  import opened Findings
  import opened CallTree
  import opened Limiter

  /** Where a thread stands in the retry loop. A `Waiting` thread sleeps on the condition and has not
      been notified; a notified one is `Ready` again and re-tests the guard. `Calling` and `Returned`
      hold a permit: inside the hook, and back from it but before the release. */
  datatype Phase = Ready | Waiting | Calling | Returned | Settling | Sleeping

  /** One pending activation of the overflow recursion: its first half is running, or its second. */
  datatype Frame =
    | InLeft(unit: ReviewUnit, faults: seq<Fault>, right: Tree)
    | InRight(unit: ReviewUnit, faults: seq<Fault>, left: Tree, leftOut: SpecialistOutput)

  /** A thread working on unit `index`: the recursion stack, innermost first, the node being
      dispatched, and how many of its faults have already struck. */
  datatype Task = Task(index: nat, stack: seq<Frame>, current: Tree, attempt: nat, phase: Phase)

  datatype Worker = Idle | Busy(task: Task)

  datatype Metric = Counts(counter: Counter) | TokenSum(tokens: TokenMeter) | CostSum(costs: CostMeter)

  datatype State = State(permits: Permits, workers: seq<Worker>, next: nat,
                         totals: map<Metric, real>, results: map<nat, SpecialistOutput>)

  const METRICS: set<Metric> := {
    Counts(Dispatched), Counts(FailedUnits), Counts(Retries), Counts(RateLimitEvents), Counts(OverflowSplits),
    TokenSum(TokensIn), TokenSum(TokensOut), CostSum(CostUsd), CostSum(EstCost)
  }

  // ---- amounts -----------------------------------------------------------------------------

  /** What a whole tree adds to a run total. */
  function Amount(t: Tree, m: Metric): real {
    match m
    case Counts(c) => Count(t, c) as real
    case TokenSum(k) => Tokens(t, k) as real
    case CostSum(k) => Cost(t, k)
  }

  function FaultAmount(f: Fault, m: Metric): real {
    if m == Counts(Retries) || (m == Counts(RateLimitEvents) && f.RateLimited?) then 1.0 else 0.0
  }

  function FaultsAmount(faults: seq<Fault>, m: Metric): real {
    if faults == [] then 0.0
    else FaultsAmount(faults[..|faults| - 1], m) + FaultAmount(faults[|faults| - 1], m)
  }

  /** What a node adds when it ends or splits. */
  function EndAmount(t: Tree, m: Metric): real {
    match m
    case Counts(c) => if c == EndCounter(t) then 1.0 else 0.0
    case TokenSum(k) => if t.Served? then TokensOf(t.answer.stamp, k) as real else 0.0
    case CostSum(k) => if t.Served? then CostOf(t.answer.stamp, k) else 0.0
  }

  lemma {:induction false} FaultsAmountCounts(faults: seq<Fault>, m: Metric)
    ensures FaultsAmount(faults, m) == if m.Counts? then FaultCount(faults, m.counter) as real else 0.0
  {
    if faults == [] {
    } else {
      FaultsAmountCounts(faults[..|faults| - 1], m);
    }
  }

  lemma AmountUnfold(t: Tree, m: Metric)
    ensures Amount(t, m) == FaultsAmount(t.faults, m) + EndAmount(t, m)
                            + (if t.Split? then Amount(t.left, m) + Amount(t.right, m) else 0.0)
  {
    FaultsAmountCounts(t.faults, m);
  }

  // ---- the step ----------------------------------------------------------------------------

  /** `notify_all`: every thread in the wait set becomes ready to re-test the guard. */
  function Notified(w: Worker): Worker {
    if w.Busy? && w.task.phase.Waiting? then Busy(w.task.(phase := Ready)) else w
  }

  function Charge(totals: map<Metric, real>, amount: Metric -> real): map<Metric, real> {
    map m | m in totals :: totals[m] + amount(m)
  }

  datatype Resumption = Continue(stack: seq<Frame>, current: Tree) | Finish(out: SpecialistOutput)

  /** A dispatch of node `done` returned `out`: hand it to the innermost pending activation. */
  function Resume(stack: seq<Frame>, done: Tree, out: SpecialistOutput): Resumption {
    if stack == [] then Finish(out)
    else
      match stack[0]
      case InLeft(u, faults, right) => Continue([InRight(u, faults, done, out)] + stack[1..], right)
      case InRight(u, faults, left, leftOut) =>
        Resume(stack[1..], Split(u, faults, left, done),
               SpecialistOutput(u.leafId, Completed, leftOut.findings + out.findings, None,
                                SumStamps([leftOut.stamp, out.stamp])))
  }

  function Returning(s: State, w: nat, t: Task, out: SpecialistOutput): State
    requires w < |s.workers|
  {
    match Resume(t.stack, t.current, out)
    case Continue(stack, current) => s.(workers := s.workers[w := Busy(Task(t.index, stack, current, 0, Ready))])
    case Finish(o) => s.(workers := s.workers[w := Idle], results := s.results[t.index := o])
  }

  function TerminalOutput(t: Tree): SpecialistOutput {
    match t
    case Served(u, _, answer) => Filled(answer, u.leafId)
    case GaveUp(u, faults) => FailedOutput(u.leafId, if faults == [] then "" else GiveUpReason(faults[|faults| - 1]))
    case _ => FailedOutput(t.unit.leafId, TOO_BIG_REASON)
  }

  /** What a thread does with a call's result once the permit is back. */
  function Settle(s: State, w: nat, t: Task): State
    requires w < |s.workers|
  {
    var n := t.current;
    if t.attempt < |n.faults| then
      var f := n.faults[t.attempt];
      var s1 := if f.RateLimited?
                then s.(permits := Penalized(s.permits), workers := Map(Notified, s.workers)) else s;
      var s2 := s1.(totals := Charge(s.totals, m => FaultAmount(f, m)));
      if n.GaveUp? && t.attempt + 1 == |n.faults| then
        Returning(s2.(totals := Charge(s2.totals, m => EndAmount(n, m))), w, t, TerminalOutput(n))
      else s2.(workers := s2.workers[w := Busy(t.(attempt := t.attempt + 1, phase := Sleeping))])
    else
      var s1 := s.(totals := Charge(s.totals, m => EndAmount(n, m)));
      match n
      case Split(u, faults, l, r) =>
        s1.(workers := s.workers[w := Busy(Task(t.index, [InLeft(u, faults, r)] + t.stack, l, 0, Ready))])
      case Served(_, _, _) =>
        Returning(s1.(permits := Rewarded(s.permits), workers := Map(Notified, s.workers)), w, t, TerminalOutput(n))
      case _ => Returning(s1, w, t, TerminalOutput(n))
  }

  predicate Enabled(trees: seq<Tree>, s: State, w: nat) {
    && w < |s.workers|
    && match s.workers[w]
       case Idle => s.next < |trees|
       case Busy(t) => !t.phase.Waiting?
  }

  function Next(trees: seq<Tree>, s: State, w: nat): State
    requires Enabled(trees, s, w)
  {
    match s.workers[w]
    case Idle =>
      s.(workers := s.workers[w := Busy(Task(s.next, [], trees[s.next], 0, Ready))], next := s.next + 1)
    case Busy(t) =>
      match t.phase
      case Ready =>
        if s.permits.inflight < s.permits.limit
        then s.(permits := s.permits.(inflight := s.permits.inflight + 1),
                workers := s.workers[w := Busy(t.(phase := Calling))])
        else s.(workers := s.workers[w := Busy(t.(phase := Waiting))])
      case Calling => s.(workers := s.workers[w := Busy(t.(phase := Returned))])
      case Returned =>
        s.(permits := s.permits.(inflight := s.permits.inflight - 1),
           workers := Map(Notified, s.workers)[w := Busy(t.(phase := Settling))])
      case Settling => Settle(s, w, t)
      case Sleeping => s.(workers := s.workers[w := Busy(t.(phase := Ready))])
      case Waiting => s
  }

  /** The totals may already carry what earlier stages of the run were charged. */
  function Start(trees: seq<Tree>, threads: nat, maxWorkers: int, minWorkers: int, totals: map<Metric, real>): State {
    State(Initial(maxWorkers, minWorkers), seq(threads, _ => Idle), 0, totals, map[])
  }

  /** `schedule` names the thread that moves at each step; every move must be possible when made. */
  ghost predicate Schedule(trees: seq<Tree>, s: State, schedule: seq<nat>)
    decreases |schedule|
  {
    schedule == [] || (Enabled(trees, s, schedule[0]) && Schedule(trees, Next(trees, s, schedule[0]), schedule[1..]))
  }

  ghost function Run(trees: seq<Tree>, s: State, schedule: seq<nat>): State
    requires Schedule(trees, s, schedule)
    decreases |schedule|
  {
    if schedule == [] then s else Run(trees, Next(trees, s, schedule[0]), schedule[1..])
  }
}
