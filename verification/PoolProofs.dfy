/** What every interleaving of the pool keeps, why it cannot get stuck, and what it ends with. */
module PoolProofs {
  import opened Util
  import opened Findings
  import opened CallTree
  import opened Limiter
  import opened Pool
  import TreeAccount

  // ---- the recursion stack as a context ----------------------------------------------------

  /** The whole unit's tree, rebuilt from the node in hand and the activations around it. */
  function Plug(stack: seq<Frame>, t: Tree): Tree
    decreases |stack|
  {
    if stack == [] then t
    else
      match stack[0]
      case InLeft(u, faults, right) => Plug(stack[1..], Split(u, faults, t, right))
      case InRight(u, faults, left, _) => Plug(stack[1..], Split(u, faults, left, t))
  }

  ghost predicate LeftsDone(stack: seq<Frame>, retries: nat) {
    forall k :: 0 <= k < |stack| && stack[k].InRight? ==>
      Valid(stack[k].left, retries) && stack[k].leftOut == Output(stack[k].left, retries)
  }

  /** The halves that have not started yet. */
  function StackAmount(stack: seq<Frame>, m: Metric): real {
    if stack == [] then 0.0
    else (if stack[0].InLeft? then Amount(stack[0].right, m) else 0.0) + StackAmount(stack[1..], m)
  }

  function StackCalls(stack: seq<Frame>): nat {
    if stack == [] then 0 else (if stack[0].InLeft? then Calls(stack[0].right) else 0) + StackCalls(stack[1..])
  }

  lemma {:induction false} PlugValid(stack: seq<Frame>, t: Tree, retries: nat)
    requires Valid(Plug(stack, t), retries)
    ensures Valid(t, retries)
    decreases |stack|
  {
    if stack == [] {
    } else {
      match stack[0]
      case InLeft(u, faults, right) => PlugValid(stack[1..], Split(u, faults, t, right), retries);
      case InRight(u, faults, left, _) => PlugValid(stack[1..], Split(u, faults, left, t), retries);
    }
  }

  ghost predicate ResumedWell(r: Resumption, root: Tree, retries: nat)
    requires Valid(root, retries)
  {
    match r
    case Continue(st, cur) => Plug(st, cur) == root && LeftsDone(st, retries) && Valid(cur, retries)
    case Finish(o) => o == Output(root, retries)
  }

  /** Handing a result back either starts the other half or, when none is left, yields exactly the
      output of the whole unit's tree. */
  lemma {:induction false} ResumeFacts(stack: seq<Frame>, done: Tree, out: SpecialistOutput, root: Tree, retries: nat)
    requires Valid(root, retries) && Plug(stack, done) == root && LeftsDone(stack, retries)
    requires Valid(done, retries) && out == Output(done, retries)
    ensures ResumedWell(Resume(stack, done, out), root, retries)
    decreases |stack|
  {
    if stack == [] {
    } else {
      match stack[0]
      case InLeft(u, faults, right) =>
        PlugValid(stack[1..], Split(u, faults, done, right), retries);
        var st := [InRight(u, faults, done, out)] + stack[1..];
        assert st[1..] == stack[1..];
      case InRight(u, faults, left, leftOut) =>
        var whole := Split(u, faults, left, done);
        PlugValid(stack[1..], whole, retries);
        assert Output(whole, retries) == SpecialistOutput(u.leafId, Completed, leftOut.findings + out.findings, None,
                                                          SumStamps([leftOut.stamp, out.stamp]));
        ResumeFacts(stack[1..], whole, Output(whole, retries), root, retries);
    }
  }

  ghost predicate ResumedOwing(r: Resumption, stack: seq<Frame>) {
    match r
    case Continue(st, cur) =>
      && StackCalls(stack) == Calls(cur) + StackCalls(st)
      && forall m :: StackAmount(stack, m) == Amount(cur, m) + StackAmount(st, m)
    case Finish(o) => StackCalls(stack) == 0 && forall m :: StackAmount(stack, m) == 0.0
  }

  /** What the stack still had before it is still there. */
  lemma {:induction false} ResumeOwes(stack: seq<Frame>, done: Tree, out: SpecialistOutput)
    ensures ResumedOwing(Resume(stack, done, out), stack)
    decreases |stack|
  {
    if stack == [] {
    } else {
      match stack[0]
      case InLeft(u, faults, right) =>
        assert ([InRight(u, faults, done, out)] + stack[1..])[1..] == stack[1..];
      case InRight(u, faults, left, leftOut) =>
        ResumeOwes(stack[1..], Split(u, faults, left, done),
                   SpecialistOutput(u.leafId, Completed, leftOut.findings + out.findings, None,
                                    SumStamps([leftOut.stamp, out.stamp])));
    }
  }

  // ---- quantities summed over the threads --------------------------------------------------

  predicate TaskOk(trees: seq<Tree>, retries: nat, t: Task) {
    && t.index < |trees| && Plug(t.stack, t.current) == trees[t.index]
    && t.attempt <= |t.current.faults|
    && (t.current.GaveUp? ==> t.attempt < |t.current.faults|)
  }

  function Holding(w: Worker): int {
    if w.Busy? && (w.task.phase.Calling? || w.task.phase.Returned?) then 1 else 0
  }

  function IsReady(w: Worker): int {
    if w.Busy? && w.task.phase.Ready? then 1 else 0
  }

  /** Amounts a thread's unit has yet to add to the run totals. */
  function WorkerPending(w: Worker, m: Metric): real {
    match w
    case Idle => 0.0
    case Busy(t) =>
      Amount(t.current, m) + StackAmount(t.stack, m)
      - (if t.attempt <= |t.current.faults| then FaultsAmount(t.current.faults[..t.attempt], m) else 0.0)
  }

  function PhaseSteps(p: Phase): int {
    match p
    case Calling => -1
    case Returned => -2
    case Settling => -3
    case Sleeping => 1
    case _ => 0
  }

  /** Steps a thread's unit can still take: five for every call it has left. */
  function WorkerSteps(w: Worker): int {
    match w
    case Idle => 0
    case Busy(t) => 5 * (Calls(t.current) - t.attempt + StackCalls(t.stack)) + PhaseSteps(t.phase)
  }

  function PendingSum(ws: seq<Worker>, m: Metric): real {
    if ws == [] then 0.0 else WorkerPending(ws[0], m) + PendingSum(ws[1..], m)
  }

  function AmountSum(trees: seq<Tree>, m: Metric): real {
    if trees == [] then 0.0 else Amount(trees[0], m) + AmountSum(trees[1..], m)
  }

  function QueueSteps(t: Tree): int { 5 * Calls(t) + 1 }

  lemma {:induction false} PendingUpdate(ws: seq<Worker>, w: nat, b: Worker, m: Metric)
    requires w < |ws|
    ensures PendingSum(ws[w := b], m) == PendingSum(ws, m) - WorkerPending(ws[w], m) + WorkerPending(b, m)
  {
    if w == 0 {
      assert ws[w := b][1..] == ws[1..];
    } else {
      assert ws[w := b][1..] == ws[1..][w - 1 := b];
      PendingUpdate(ws[1..], w - 1, b, m);
    }
  }

  lemma {:induction false} PendingSame(a: seq<Worker>, b: seq<Worker>, m: Metric)
    requires |a| == |b| && forall i :: 0 <= i < |a| ==> WorkerPending(a[i], m) == WorkerPending(b[i], m)
    ensures PendingSum(a, m) == PendingSum(b, m)
  {
    if a == [] {
    } else {
      PendingSame(a[1..], b[1..], m);
    }
  }

  // ---- the invariant -----------------------------------------------------------------------

  ghost predicate WorkersOk(trees: seq<Tree>, retries: nat, s: State) {
    forall w :: 0 <= w < |s.workers| && s.workers[w].Busy? ==>
      var t := s.workers[w].task;
      TaskOk(trees, retries, t) && LeftsDone(t.stack, retries) && t.index < s.next
  }

  predicate WorksOn(ws: seq<Worker>, w: int, u: nat) {
    0 <= w < |ws| && ws[w].Busy? && ws[w].task.index == u
  }

  ghost predicate ResultsOk(trees: seq<Tree>, retries: nat, s: State)
    requires forall u :: 0 <= u < |trees| ==> Valid(trees[u], retries)
    requires s.next <= |trees|
  {
    && (forall u :: u in s.results ==> u < s.next && s.results[u] == Output(trees[u], retries))
    && (forall u :: 0 <= u < s.next && u !in s.results ==> exists w :: WorksOn(s.workers, w, u))
  }

  /** No lost wake-up: whoever sleeps un-notified is rightly asleep. */
  ghost predicate Awake(s: State) {
    forall w :: 0 <= w < |s.workers| && s.workers[w].Busy? && s.workers[w].task.phase.Waiting? ==>
      s.permits.inflight >= s.permits.limit
  }

  ghost predicate AllValid(trees: seq<Tree>, retries: nat) {
    forall u :: 0 <= u < |trees| ==> Valid(trees[u], retries)
  }

  ghost predicate Control(trees: seq<Tree>, retries: nat, s: State) {
    && AllValid(trees, retries) && s.next <= |trees|
    && Sound(s.permits)
    && s.permits.inflight == Sum(Holding, s.workers)
    && Awake(s)
    && WorkersOk(trees, retries, s)
    && ResultsOk(trees, retries, s)
  }

  /** Nothing is charged twice or dropped: charged so far, plus what the threads and the queue still
      owe, is what the totals were before plus what the units cost. */
  ghost predicate Ledger(trees: seq<Tree>, s: State, before: map<Metric, real>) {
    && s.next <= |trees| && s.totals.Keys == before.Keys
    && forall m :: m in before ==>
         s.totals[m] + PendingSum(s.workers, m) + AmountSum(trees[s.next..], m) == before[m] + AmountSum(trees, m)
  }

  // ---- one step ----------------------------------------------------------------------------

  /** Does this step call `notify_all`? */
  predicate Notifies(s: State, w: nat)
    requires w < |s.workers|
  {
    match s.workers[w]
    case Idle => false
    case Busy(t) =>
      match t.phase
      case Returned => true
      case Settling =>
        if t.attempt < |t.current.faults| then t.current.faults[t.attempt].RateLimited? else t.current.Served?
      case _ => false
  }

  function Others(s: State, w: nat): seq<Worker>
    requires w < |s.workers|
  {
    if Notifies(s, w) then Map(Notified, s.workers) else s.workers
  }

  lemma ReturningShape(s: State, w: nat, t: Task, out: SpecialistOutput)
    requires w < |s.workers|
    ensures var s' := Returning(s, w, t, out);
            |s'.workers| == |s.workers| && s'.workers == s.workers[w := s'.workers[w]] && s'.next == s.next
  {
  }

  lemma SettleShape(s: State, w: nat, t: Task)
    requires w < |s.workers| && s.workers[w] == Busy(t) && t.phase.Settling?
    ensures var s' := Settle(s, w, t);
            && |s'.workers| == |s.workers|
            && s'.workers == Others(s, w)[w := s'.workers[w]]
            && s'.next == s.next
  {
    var n := t.current;
    if t.attempt < |n.faults| {
      var f := n.faults[t.attempt];
      var s1 := if f.RateLimited? then s.(permits := Penalized(s.permits), workers := Map(Notified, s.workers)) else s;
      assert s1.workers == Others(s, w);
      var s2 := s1.(totals := Charge(s.totals, m => FaultAmount(f, m)));
      ReturningShape(s2.(totals := Charge(s2.totals, m => EndAmount(n, m))), w, t, TerminalOutput(n));
    } else {
      var s1 := s.(totals := Charge(s.totals, m => EndAmount(n, m)));
      ReturningShape(s1, w, t, TerminalOutput(n));
      ReturningShape(s1.(permits := Rewarded(s.permits), workers := Map(Notified, s.workers)), w, t, TerminalOutput(n));
    }
  }

  lemma StepShape(trees: seq<Tree>, s: State, w: nat)
    requires Enabled(trees, s, w)
    ensures var s' := Next(trees, s, w);
            && |s'.workers| == |s.workers|
            && s'.workers == Others(s, w)[w := s'.workers[w]]
            && s'.next == (if s.workers[w].Idle? then s.next + 1 else s.next)
  {
    if s.workers[w].Busy? && s.workers[w].task.phase.Settling? {
      SettleShape(s, w, s.workers[w].task);
    }
  }

  lemma OthersSums(s: State, w: nat, b: Worker)
    requires w < |s.workers|
    ensures Sum(Holding, Others(s, w)[w := b]) == Sum(Holding, s.workers) - Holding(s.workers[w]) + Holding(b)
    ensures Sum(WorkerSteps, Others(s, w)[w := b])
            == Sum(WorkerSteps, s.workers) - WorkerSteps(s.workers[w]) + WorkerSteps(b)
    ensures forall m :: PendingSum(Others(s, w)[w := b], m)
                        == PendingSum(s.workers, m) - WorkerPending(s.workers[w], m) + WorkerPending(b, m)
  {
    var o := Others(s, w);
    SumPointwise(Holding, s.workers, o);
    SumPointwise(WorkerSteps, s.workers, o);
    SumUpdate(Holding, o, w, b);
    SumUpdate(WorkerSteps, o, w, b);
    assert Holding(o[w]) == Holding(s.workers[w]) && WorkerSteps(o[w]) == WorkerSteps(s.workers[w]);
    forall m
      ensures PendingSum(o[w := b], m)
              == PendingSum(s.workers, m) - WorkerPending(s.workers[w], m) + WorkerPending(b, m)
    {
      PendingSame(s.workers, o, m);
      PendingUpdate(o, w, b, m);
    }
  }

  ghost predicate WakesWell(s: State, w: nat, s': State)
    requires w < |s.workers| == |s'.workers|
  {
    var blocked := s'.workers[w].Busy? && s'.workers[w].task.phase.Waiting?;
    if Notifies(s, w) then !blocked
    else
      && s'.permits.limit <= s.permits.limit && s'.permits.inflight >= s.permits.inflight
      && (blocked ==> s'.permits.inflight >= s'.permits.limit)
  }

  ghost predicate ChargesWell(trees: seq<Tree>, s: State, w: nat, s': State)
    requires w < |s.workers| == |s'.workers| && (s.workers[w].Idle? ==> s.next < |trees|)
  {
    && s'.totals.Keys == s.totals.Keys
    && forall m :: m in s.totals ==>
         s'.totals[m] + WorkerPending(s'.workers[w], m) == s.totals[m] + WorkerPending(s.workers[w], m)
           + (if s.workers[w].Idle? then Amount(trees[s.next], m) else 0.0)
  }

  ghost predicate StepsWell(trees: seq<Tree>, s: State, w: nat, s': State)
    requires w < |s.workers| == |s'.workers| && (s.workers[w].Idle? ==> s.next < |trees|)
  {
    var a, b := s.workers[w], s'.workers[w];
    if a.Idle? then WorkerSteps(b) < QueueSteps(trees[s.next])
    else if b.Busy? && b.task.phase.Waiting? then WorkerSteps(b) == WorkerSteps(a) && IsReady(a) == 1 && !Notifies(s, w)
    else WorkerSteps(b) < WorkerSteps(a)
  }

  /** What one step does to the thread that moves and to the shared state. */
  ghost predicate StepWell(trees: seq<Tree>, retries: nat, s: State, w: nat, s': State)
    requires AllValid(trees, retries) && s.next <= |trees|
    requires w < |s.workers| == |s'.workers| && (s.workers[w].Idle? ==> s.next < |trees|)
  {
    var a, b := s.workers[w], s'.workers[w];
    && (b.Busy? ==> TaskOk(trees, retries, b.task) && LeftsDone(b.task.stack, retries)
                    && b.task.index == (if a.Busy? then a.task.index else s.next))
    && (if b.Idle? then a.Busy? && a.task.index < |trees|
                        && s'.results == s.results[a.task.index := Output(trees[a.task.index], retries)]
        else s'.results == s.results)
    && Sound(s'.permits) && s'.permits.inflight == s.permits.inflight - Holding(a) + Holding(b)
    && s'.permits.max == s.permits.max && s'.permits.min == s.permits.min
    && WakesWell(s, w, s')
    && ChargesWell(trees, s, w, s')
    && StepsWell(trees, s, w, s')
  }

  lemma HoldersCounted(ws: seq<Worker>, w: nat)
    requires w < |ws|
    ensures Sum(Holding, ws) >= Holding(ws[w])
  {
    SumUpdate(Holding, ws, w, Idle);
    SumBounds(Holding, ws[w := Idle], 0, 1);
  }

  /** What a thread's own step needs of the invariant. */
  ghost predicate Here(trees: seq<Tree>, retries: nat, s: State, w: nat) {
    && AllValid(trees, retries) && s.next <= |trees| && Sound(s.permits) && w < |s.workers|
    && s.permits.inflight >= Holding(s.workers[w])
    && (s.workers[w].Busy? ==>
          var t := s.workers[w].task; TaskOk(trees, retries, t) && LeftsDone(t.stack, retries) && t.index < s.next)
  }

  lemma ControlHere(trees: seq<Tree>, retries: nat, s: State, w: nat)
    requires Control(trees, retries, s) && w < |s.workers|
    ensures Here(trees, retries, s, w)
  {
    HoldersCounted(s.workers, w);
  }

  lemma PickWell(trees: seq<Tree>, retries: nat, s: State, w: nat)
    requires Here(trees, retries, s, w) && Enabled(trees, s, w) && s.workers[w].Idle?
    ensures StepWell(trees, retries, s, w, Next(trees, s, w))
  {
    var t := trees[s.next];
    assert t.faults[..0] == [];
    assert Valid(t, retries);
  }

  lemma AcquireWell(trees: seq<Tree>, retries: nat, s: State, w: nat)
    requires Here(trees, retries, s, w) && Enabled(trees, s, w)
    requires s.workers[w].Busy? && s.workers[w].task.phase.Ready?
    ensures StepWell(trees, retries, s, w, Next(trees, s, w))
  {
  }

  /** Entering and leaving the hook, releasing the permit, waking from a back-off. */
  lemma LocalStepWell(trees: seq<Tree>, retries: nat, s: State, w: nat)
    requires Here(trees, retries, s, w) && Enabled(trees, s, w) && s.workers[w].Busy?
    requires var p := s.workers[w].task.phase; p.Calling? || p.Returned? || p.Sleeping?
    ensures StepWell(trees, retries, s, w, Next(trees, s, w))
  {
  }

  lemma ChargeAdds(totals: map<Metric, real>, amount: Metric -> real)
    ensures Charge(totals, amount).Keys == totals.Keys
    ensures forall m :: m in totals ==> Charge(totals, amount)[m] == totals[m] + amount(m)
  {
  }

  /** A terminal node's result goes back: the thread starts the other half or finishes its unit. */
  lemma ReturningTask(trees: seq<Tree>, retries: nat, s: State, w: nat, t: Task, s1: State)
    requires Here(trees, retries, s, w) && s.workers[w] == Busy(t) && !t.current.Split?
    requires t.attempt + (if t.current.GaveUp? then 1 else 0) == |t.current.faults|
    requires |s1.workers| == |s.workers| && s1.results == s.results
    ensures var s' := Returning(s1, w, t, TerminalOutput(t.current));
      && |s'.workers| == |s.workers| && s'.permits == s1.permits && s'.totals == s1.totals
      && match s'.workers[w]
         case Busy(u) =>
           && TaskOk(trees, retries, u) && LeftsDone(u.stack, retries) && u.index == t.index && u.phase.Ready?
           && s'.results == s.results
         case Idle => s'.results == s.results[t.index := Output(trees[t.index], retries)]
  {
    PlugValid(t.stack, t.current, retries);
    ResumeFacts(t.stack, t.current, TerminalOutput(t.current), trees[t.index], retries);
  }

  lemma ReturningOwes(s1: State, w: nat, t: Task, out: SpecialistOutput)
    requires w < |s1.workers|
    ensures var b := Returning(s1, w, t, out).workers[w];
      && WorkerSteps(b) == 5 * StackCalls(t.stack)
      && forall m :: WorkerPending(b, m) == StackAmount(t.stack, m)
  {
    ResumeOwes(t.stack, t.current, out);
    match Resume(t.stack, t.current, out)
    case Continue(st, cur) => assert cur.faults[..0] == [];
    case Finish(o) =>
  }

  lemma ReturningWell(trees: seq<Tree>, retries: nat, s: State, w: nat, t: Task, s1: State)
    requires Here(trees, retries, s, w) && s.workers[w] == Busy(t) && t.phase.Settling?
    requires !t.current.Split?
    requires t.attempt + (if t.current.GaveUp? then 1 else 0) == |t.current.faults|
    requires |s1.workers| == |s.workers| && s1.results == s.results && s1.totals.Keys == s.totals.Keys
    requires Sound(s1.permits) && s1.permits.inflight == s.permits.inflight
    requires s1.permits.max == s.permits.max && s1.permits.min == s.permits.min
    requires !Notifies(s, w) ==> s1.permits.limit <= s.permits.limit
    requires forall m :: m in s.totals ==>
               s1.totals[m] == s.totals[m] + Amount(t.current, m) - FaultsAmount(t.current.faults[..t.attempt], m)
    ensures StepWell(trees, retries, s, w, Returning(s1, w, t, TerminalOutput(t.current)))
  {
    ReturningTask(trees, retries, s, w, t, s1);
    ReturningOwes(s1, w, t, TerminalOutput(t.current));
  }

  /** The run state once a fault is counted and, for a rate limit, the penalty applied. */
  function Struck(s: State, f: Fault): State {
    var s1 := if f.RateLimited? then s.(permits := Penalized(s.permits), workers := Map(Notified, s.workers)) else s;
    s1.(totals := Charge(s.totals, m => FaultAmount(f, m)))
  }

  lemma FaultCharged(n: Tree, k: nat)
    requires k < |n.faults|
    ensures forall m ::
      FaultsAmount(n.faults[..k + 1], m) == FaultsAmount(n.faults[..k], m) + FaultAmount(n.faults[k], m)
  {
    assert n.faults[..k + 1][..k] == n.faults[..k];
  }

  lemma RetrySettles(s: State, w: nat, t: Task)
    requires w < |s.workers| && s.workers[w] == Busy(t)
    requires t.attempt < |t.current.faults| && (t.current.GaveUp? ==> t.attempt + 1 < |t.current.faults|)
    ensures var s2 := Struck(s, t.current.faults[t.attempt]);
      Settle(s, w, t) == s2.(workers := s2.workers[w := Busy(t.(attempt := t.attempt + 1, phase := Sleeping))])
  {
  }

  /** A fault with attempts left: the thread counts it and backs off. */
  lemma RetryStepWell(trees: seq<Tree>, retries: nat, s: State, w: nat, t: Task)
    requires Here(trees, retries, s, w) && s.workers[w] == Busy(t) && t.phase.Settling?
    requires t.attempt < |t.current.faults| && (t.current.GaveUp? ==> t.attempt + 1 < |t.current.faults|)
    ensures StepWell(trees, retries, s, w, Settle(s, w, t))
  {
    RetrySettles(s, w, t);
    FaultCharged(t.current, t.attempt);
    ChargeAdds(s.totals, m => FaultAmount(t.current.faults[t.attempt], m));
  }

  /** The fault that exhausts the attempts: the unit is reported failed. */
  lemma GiveUpStepWell(trees: seq<Tree>, retries: nat, s: State, w: nat, t: Task)
    requires Here(trees, retries, s, w) && s.workers[w] == Busy(t) && t.phase.Settling?
    requires t.current.GaveUp? && t.attempt + 1 == |t.current.faults|
    ensures StepWell(trees, retries, s, w, Settle(s, w, t))
  {
    var n := t.current;
    var f := n.faults[t.attempt];
    var s2 := Struck(s, f);
    FaultCharged(n, t.attempt);
    ChargeAdds(s.totals, m => FaultAmount(f, m));
    ChargeAdds(s2.totals, m => EndAmount(n, m));
    assert n.faults[..t.attempt + 1] == n.faults;
    forall m ensures Amount(n, m) == FaultsAmount(n.faults[..t.attempt], m) + FaultAmount(f, m) + EndAmount(n, m) {
      AmountUnfold(n, m);
    }
    ReturningWell(trees, retries, s, w, t, s2.(totals := Charge(s2.totals, m => EndAmount(n, m))));
  }

  lemma EndStepWell(trees: seq<Tree>, retries: nat, s: State, w: nat)
    requires Here(trees, retries, s, w) && Enabled(trees, s, w) && s.workers[w].Busy?
    requires s.workers[w].task.phase.Settling? && s.workers[w].task.attempt == |s.workers[w].task.current.faults|
    ensures StepWell(trees, retries, s, w, Next(trees, s, w))
  {
    var t := s.workers[w].task;
    var n := t.current;
    assert n.faults[..t.attempt] == n.faults;
    ChargeAdds(s.totals, m => EndAmount(n, m));
    forall m
      ensures Amount(n, m) == FaultsAmount(n.faults, m) + EndAmount(n, m)
                              + (if n.Split? then Amount(n.left, m) + Amount(n.right, m) else 0.0)
    {
      AmountUnfold(n, m);
    }
    var s1 := s.(totals := Charge(s.totals, m => EndAmount(n, m)));
    match n {
      case Split(u, faults, l, r) =>
        var st := [InLeft(u, faults, r)] + t.stack;
        assert st[1..] == t.stack;
        assert l.faults[..0] == [];
        PlugValid(t.stack, n, retries);
      case Served(_, _, _) =>
        ReturningWell(trees, retries, s, w, t,
                      s1.(permits := Rewarded(s.permits), workers := Map(Notified, s.workers)));
      case _ => ReturningWell(trees, retries, s, w, t, s1);
    }
  }

  lemma EveryStepWell(trees: seq<Tree>, retries: nat, s: State, w: nat)
    requires Control(trees, retries, s) && Enabled(trees, s, w)
    ensures |Next(trees, s, w).workers| == |s.workers|
    ensures StepWell(trees, retries, s, w, Next(trees, s, w))
  {
    StepShape(trees, s, w);
    ControlHere(trees, retries, s, w);
    if s.workers[w].Idle? {
      PickWell(trees, retries, s, w);
    } else if s.workers[w].task.phase.Ready? {
      AcquireWell(trees, retries, s, w);
    } else if !s.workers[w].task.phase.Settling? {
      LocalStepWell(trees, retries, s, w);
    } else {
      var t := s.workers[w].task;
      if t.attempt == |t.current.faults| {
        EndStepWell(trees, retries, s, w);
      } else if t.current.GaveUp? && t.attempt + 1 == |t.current.faults| {
        GiveUpStepWell(trees, retries, s, w, t);
      } else {
        RetryStepWell(trees, retries, s, w, t);
      }
    }
  }

  // ---- every step --------------------------------------------------------------------------

  lemma CoverageKept(trees: seq<Tree>, retries: nat, s: State, w: nat)
    requires Control(trees, retries, s) && Enabled(trees, s, w)
    requires |Next(trees, s, w).workers| == |s.workers| && StepWell(trees, retries, s, w, Next(trees, s, w))
    ensures Next(trees, s, w).next <= |trees| && ResultsOk(trees, retries, Next(trees, s, w))
  {
    StepShape(trees, s, w);
    var s' := Next(trees, s, w);
    forall u | 0 <= u < s'.next && u !in s'.results ensures exists v :: WorksOn(s'.workers, v, u) {
      if u == s.next {
        assert WorksOn(s'.workers, w, u);
      } else {
        var v :| WorksOn(s.workers, v, u);
        if v != w {
          assert s'.workers[v] == Others(s, w)[v];
        }
        assert WorksOn(s'.workers, v, u);
      }
    }
  }

  lemma OthersUnmoved(trees: seq<Tree>, s: State, w: nat, v: nat)
    requires Enabled(trees, s, w) && v < |s.workers| && v != w
    ensures v < |Next(trees, s, w).workers|
    ensures Next(trees, s, w).workers[v] == if Notifies(s, w) then Notified(s.workers[v]) else s.workers[v]
  {
    StepShape(trees, s, w);
    assert Next(trees, s, w).workers[v] == Others(s, w)[v];
  }

  lemma AwakeKept(trees: seq<Tree>, retries: nat, s: State, w: nat)
    requires Control(trees, retries, s) && Enabled(trees, s, w)
    requires |Next(trees, s, w).workers| == |s.workers| && WakesWell(s, w, Next(trees, s, w))
    ensures Awake(Next(trees, s, w))
  {
    var s' := Next(trees, s, w);
    forall v | 0 <= v < |s'.workers| && s'.workers[v].Busy? && s'.workers[v].task.phase.Waiting?
      ensures s'.permits.inflight >= s'.permits.limit
    {
      if v != w {
        OthersUnmoved(trees, s, w, v);
      }
    }
  }

  lemma WorkersOkKept(trees: seq<Tree>, retries: nat, s: State, w: nat)
    requires Control(trees, retries, s) && Enabled(trees, s, w)
    requires |Next(trees, s, w).workers| == |s.workers| && StepWell(trees, retries, s, w, Next(trees, s, w))
    ensures WorkersOk(trees, retries, Next(trees, s, w))
  {
    var s' := Next(trees, s, w);
    StepShape(trees, s, w);
    forall v | 0 <= v < |s'.workers| && s'.workers[v].Busy?
      ensures var t := s'.workers[v].task; TaskOk(trees, retries, t) && LeftsDone(t.stack, retries) && t.index < s'.next
    {
      if v != w {
        OthersUnmoved(trees, s, w, v);
      }
    }
  }

  lemma StepKeepsControl(trees: seq<Tree>, retries: nat, s: State, w: nat)
    requires Control(trees, retries, s) && Enabled(trees, s, w)
    ensures Control(trees, retries, Next(trees, s, w))
    ensures Next(trees, s, w).permits.max == s.permits.max && Next(trees, s, w).permits.min == s.permits.min
  {
    EveryStepWell(trees, retries, s, w);
    StepShape(trees, s, w);
    OthersSums(s, w, Next(trees, s, w).workers[w]);
    CoverageKept(trees, retries, s, w);
    AwakeKept(trees, retries, s, w);
    WorkersOkKept(trees, retries, s, w);
  }

  lemma StepKeepsLedger(trees: seq<Tree>, retries: nat, s: State, w: nat, before: map<Metric, real>)
    requires Control(trees, retries, s) && Ledger(trees, s, before) && Enabled(trees, s, w)
    ensures Ledger(trees, Next(trees, s, w), before)
  {
    EveryStepWell(trees, retries, s, w);
    StepShape(trees, s, w);
    var s' := Next(trees, s, w);
    OthersSums(s, w, s'.workers[w]);
    if s.workers[w].Idle? {
      assert trees[s.next..] == [trees[s.next]] + trees[s.next + 1..];
    }
  }

  /** The thread is about to count a rate limit, which costs everybody a penalty. */
  predicate StrikesRateLimit(s: State, w: nat)
    requires w < |s.workers|
  {
    match s.workers[w]
    case Idle => false
    case Busy(t) =>
      t.phase.Settling? && t.attempt < |t.current.faults| && t.current.faults[t.attempt].RateLimited?
  }

  lemma SettlePermits(s: State, w: nat, t: Task)
    requires w < |s.workers| && s.workers[w] == Busy(t)
    ensures Settle(s, w, t).permits ==
      if t.attempt < |t.current.faults| then
        (if t.current.faults[t.attempt].RateLimited? then Penalized(s.permits) else s.permits)
      else if t.current.Served? then Rewarded(s.permits) else s.permits
  {
  }

  /** A permit is only ever granted below the limit in force. */
  lemma GrantsRespectLimit(trees: seq<Tree>, retries: nat, s: State, w: nat)
    requires Control(trees, retries, s) && Enabled(trees, s, w)
    ensures var s' := Next(trees, s, w);
            s'.permits.inflight > s.permits.inflight ==> s'.permits.inflight <= s'.permits.limit
  {
    if s.workers[w].Busy? && s.workers[w].task.phase.Settling? {
      SettlePermits(s, w, s.workers[w].task);
    }
  }

  /** The calls in flight stay within the limit in force over every step except one: a penalty that
      halves the limit below them. */
  lemma LimitKeptIff(trees: seq<Tree>, retries: nat, s: State, w: nat)
    requires Control(trees, retries, s) && Enabled(trees, s, w) && s.permits.inflight <= s.permits.limit
    ensures Next(trees, s, w).permits.inflight <= Next(trees, s, w).permits.limit
      <==> !StrikesRateLimit(s, w) || s.permits.inflight <= Max(s.permits.min, s.permits.limit / 2)
  {
    EveryStepWell(trees, retries, s, w);
    if s.workers[w].Busy? && s.workers[w].task.phase.Settling? {
      SettlePermits(s, w, s.workers[w].task);
    }
  }

  function StepsLeft(trees: seq<Tree>, s: State): int
    requires s.next <= |trees|
  {
    Sum(WorkerSteps, s.workers) + Sum(QueueSteps, trees[s.next..])
  }

  /** Steps still to come, counting a guard about to be re-tested as less than any real progress. */
  function Fuel(trees: seq<Tree>, s: State): int
    requires s.next <= |trees|
  {
    StepsLeft(trees, s) * (|s.workers| + 1) + Sum(IsReady, s.workers)
  }

  /** A step brings some unit nearer to its end, or puts a thread whose guard failed to sleep. */
  lemma StepProgress(trees: seq<Tree>, retries: nat, s: State, w: nat)
    requires Control(trees, retries, s) && Enabled(trees, s, w)
    ensures var s' := Next(trees, s, w);
            && s'.next <= |trees| && |s'.workers| == |s.workers|
            && (StepsLeft(trees, s') < StepsLeft(trees, s)
                || (StepsLeft(trees, s') == StepsLeft(trees, s)
                    && Sum(IsReady, s'.workers) == Sum(IsReady, s.workers) - 1))
  {
    EveryStepWell(trees, retries, s, w);
    StepShape(trees, s, w);
    var s' := Next(trees, s, w);
    var b := s'.workers[w];
    OthersSums(s, w, b);
    if s.workers[w].Idle? {
      assert trees[s.next..] == [trees[s.next]] + trees[s.next + 1..];
    }
    if b.Busy? && b.task.phase.Waiting? {
      SumUpdate(IsReady, s.workers, w, b);
    }
  }

  lemma FuelArithmetic(before: int, after: int, k: int, ready: int, ready': int)
    requires 0 <= ready && 0 <= ready' < k
    requires after < before || (after == before && ready' < ready)
    ensures after * k + ready' < before * k + ready
  {
    if after < before {
      MulMonotone(k, after, before - 1);
      assert k * (before - 1) == k * before - k;
    }
  }

  lemma FuelFalls(trees: seq<Tree>, s: State, s': State)
    requires s.next <= |trees| && s'.next <= |trees| && |s'.workers| == |s.workers|
    requires
      || StepsLeft(trees, s') < StepsLeft(trees, s)
      || (StepsLeft(trees, s') == StepsLeft(trees, s) && Sum(IsReady, s'.workers) < Sum(IsReady, s.workers))
    ensures Fuel(trees, s') < Fuel(trees, s)
  {
    SumBounds(IsReady, s'.workers, 0, 1);
    SumBounds(IsReady, s.workers, 0, 1);
    FuelArithmetic(StepsLeft(trees, s), StepsLeft(trees, s'), |s.workers| + 1,
                   Sum(IsReady, s.workers), Sum(IsReady, s'.workers));
  }

  lemma StepBurnsFuel(trees: seq<Tree>, retries: nat, s: State, w: nat)
    requires Control(trees, retries, s) && Enabled(trees, s, w)
    ensures Next(trees, s, w).next <= |trees|
    ensures Fuel(trees, Next(trees, s, w)) < Fuel(trees, s)
  {
    StepProgress(trees, retries, s, w);
    FuelFalls(trees, s, Next(trees, s, w));
  }

  lemma {:induction false} SumNonNegative<T>(f: T -> int, s: seq<T>)
    requires forall i :: 0 <= i < |s| ==> f(s[i]) >= 0
    ensures Sum(f, s) >= 0
  {
    if s == [] {
    } else {
      SumNonNegative(f, s[1..]);
    }
  }

  lemma FuelNonNegative(trees: seq<Tree>, retries: nat, s: State)
    requires Control(trees, retries, s)
    ensures Fuel(trees, s) >= 0
  {
    forall w | 0 <= w < |s.workers| ensures WorkerSteps(s.workers[w]) >= 0 {
      if s.workers[w].Busy? {
        var t := s.workers[w].task;
        assert Calls(t.current) - t.attempt >= 1;
      }
    }
    SumNonNegative(WorkerSteps, s.workers);
    SumNonNegative(QueueSteps, trees[s.next..]);
    SumNonNegative(IsReady, s.workers);
    MulMonotone(|s.workers| + 1, 0, StepsLeft(trees, s));
  }

  // ---- every run ---------------------------------------------------------------------------

  lemma {:induction false} IdleOwesNothing(ws: seq<Worker>, m: Metric)
    requires forall w :: 0 <= w < |ws| ==> ws[w].Idle?
    ensures PendingSum(ws, m) == 0.0
  {
    if ws == [] {
    } else {
      IdleOwesNothing(ws[1..], m);
    }
  }

  lemma StartWell(trees: seq<Tree>, retries: nat, threads: nat, maxWorkers: int, minWorkers: int,
                  before: map<Metric, real>)
    requires AllValid(trees, retries) && 1 <= maxWorkers && minWorkers <= maxWorkers
    ensures var s := Start(trees, threads, maxWorkers, minWorkers, before);
      Control(trees, retries, s) && Ledger(trees, s, before)
  {
    var s := Start(trees, threads, maxWorkers, minWorkers, before);
    SumBounds(Holding, s.workers, 0, 0);
    assert trees[0..] == trees;
    forall m ensures PendingSum(s.workers, m) == 0.0 {
      IdleOwesNothing(s.workers, m);
    }
  }

  /** Safety over every interleaving: permits match the threads that hold one, the limit stays within
      its bounds, no wake-up is lost, every thread's stack rebuilds its unit, no charge is lost. */
  lemma {:induction false} RunKeepsInvariant(trees: seq<Tree>, retries: nat, s: State, schedule: seq<nat>,
                                             before: map<Metric, real>)
    requires Control(trees, retries, s) && Ledger(trees, s, before) && Schedule(trees, s, schedule)
    ensures Control(trees, retries, Run(trees, s, schedule)) && Ledger(trees, Run(trees, s, schedule), before)
    ensures |Run(trees, s, schedule).workers| == |s.workers|
    ensures Run(trees, s, schedule).permits.max == s.permits.max
    ensures Run(trees, s, schedule).permits.min == s.permits.min
    ensures |schedule| <= Fuel(trees, s)
    decreases |schedule|
  {
    FuelNonNegative(trees, retries, s);
    if schedule == [] {
    } else {
      StepKeepsControl(trees, retries, s, schedule[0]);
      StepKeepsLedger(trees, retries, s, schedule[0], before);
      StepBurnsFuel(trees, retries, s, schedule[0]);
      StepShape(trees, s, schedule[0]);
      RunKeepsInvariant(trees, retries, Next(trees, s, schedule[0]), schedule[1..], before);
    }
  }

  ghost predicate Finished(trees: seq<Tree>, s: State) {
    s.next == |trees| && forall w :: 0 <= w < |s.workers| ==> s.workers[w].Idle?
  }

  lemma NoHolders(trees: seq<Tree>, s: State)
    requires forall w: nat :: !Enabled(trees, s, w)
    ensures Sum(Holding, s.workers) == 0
  {
    forall w: nat | w < |s.workers| ensures Holding(s.workers[w]) == 0 {
      assert !Enabled(trees, s, w);
    }
    SumBounds(Holding, s.workers, 0, 0);
  }

  /** While any unit is unfinished some thread can move: were they all asleep on the condition, the
      permits would have to be held by threads that are not. */
  lemma NoDeadlock(trees: seq<Tree>, retries: nat, s: State)
    requires Control(trees, retries, s) && |s.workers| > 0 && !Finished(trees, s)
    ensures exists w: nat :: Enabled(trees, s, w)
  {
    if forall w: nat :: !Enabled(trees, s, w) {
      if w: nat :| w < |s.workers| && s.workers[w].Idle? {
        assert !Enabled(trees, s, w);
        var v: nat :| v < |s.workers| && s.workers[v].Busy?;
        assert !Enabled(trees, s, v);
        NoHolders(trees, s);
        assert false;
      } else {
        assert !Enabled(trees, s, 0);
        NoHolders(trees, s);
        assert false;
      }
    }
  }

  function InHook(w: Worker): int {
    if w.Busy? && w.task.phase.Calling? then 1 else 0
  }

  lemma {:induction false} SumBelow<T>(f: T -> int, g: T -> int, s: seq<T>)
    requires forall x :: x in s ==> f(x) <= g(x)
    ensures Sum(f, s) <= Sum(g, s)
  {
    if s == [] {
    } else {
      SumBelow(f, g, s[1..]);
    }
  }

  /** At no point of any run are more than the configured maximum of calls inside the hook, however
      many threads there are. */
  lemma ConcurrencyBounded(trees: seq<Tree>, retries: nat, threads: nat, maxWorkers: int, minWorkers: int,
                           before: map<Metric, real>, schedule: seq<nat>)
    requires AllValid(trees, retries) && 1 <= maxWorkers && minWorkers <= maxWorkers
    requires Schedule(trees, Start(trees, threads, maxWorkers, minWorkers, before), schedule)
    ensures var s := Run(trees, Start(trees, threads, maxWorkers, minWorkers, before), schedule);
            && Sum(InHook, s.workers) <= s.permits.inflight <= maxWorkers
            && Max(1, minWorkers) <= s.permits.limit <= maxWorkers
  {
    var start := Start(trees, threads, maxWorkers, minWorkers, before);
    StartWell(trees, retries, threads, maxWorkers, minWorkers, before);
    RunKeepsInvariant(trees, retries, start, schedule, before);
    SumBelow(InHook, Holding, Run(trees, start, schedule).workers);
  }

  /** From every state the pool can be in, any way of choosing enabled threads ends with all units
      finished; here is one. */
  lemma {:induction false} FinishingSchedule(trees: seq<Tree>, retries: nat, s: State) returns (schedule: seq<nat>)
    requires Control(trees, retries, s) && |s.workers| > 0
    ensures Schedule(trees, s, schedule) && Finished(trees, Run(trees, s, schedule))
    decreases Fuel(trees, s)
  {
    FuelNonNegative(trees, retries, s);
    if Finished(trees, s) {
      schedule := [];
    } else {
      NoDeadlock(trees, retries, s);
      var w: nat :| Enabled(trees, s, w);
      StepKeepsControl(trees, retries, s, w);
      StepBurnsFuel(trees, retries, s, w);
      StepShape(trees, s, w);
      var rest := FinishingSchedule(trees, retries, Next(trees, s, w));
      schedule := [w] + rest;
      assert schedule[1..] == rest;
    }
  }

  /** What one result row carries of a cost metric; counters are not on the rows. */
  function RowAmount(o: SpecialistOutput, m: Metric): real {
    match m
    case Counts(_) => 0.0
    case TokenSum(k) => TokensOf(o.stamp, k) as real
    case CostSum(k) => CostOf(o.stamp, k)
  }

  function RowSum(results: map<nat, SpecialistOutput>, n: nat, m: Metric): real
    requires forall u: nat :: u < n ==> u in results
  {
    if n == 0 then 0.0 else RowSum(results, n - 1, m) + RowAmount(results[n - 1], m)
  }

  function Growth(s: State, before: map<Metric, real>, m: Metric): real
    requires m in s.totals && m in before
  {
    s.totals[m] - before[m]
  }

  lemma {:induction false} AmountSumLast(trees: seq<Tree>, m: Metric)
    requires trees != []
    ensures AmountSum(trees, m) == AmountSum(trees[..|trees| - 1], m) + Amount(trees[|trees| - 1], m)
  {
    if |trees| == 1 {
    } else {
      AmountSumLast(trees[1..], m);
      assert trees[1..][..|trees| - 2] == trees[..|trees| - 1][1..];
    }
  }

  lemma {:induction false} RowsMatchAmounts(trees: seq<Tree>, retries: nat, results: map<nat, SpecialistOutput>,
                                            m: Metric)
    requires AllValid(trees, retries) && !m.Counts?
    requires forall u: nat :: u < |trees| ==> u in results && results[u] == Output(trees[u], retries)
    ensures RowSum(results, |trees|, m) == AmountSum(trees, m)
  {
    var n := |trees|;
    if n == 0 {
    } else {
      RowsMatchAmounts(trees[..n - 1], retries, results, m);
      AmountSumLast(trees, m);
      CostConserved(trees[n - 1], retries);
    }
  }

  lemma {:induction false} EndsBalanceOverall(trees: seq<Tree>)
    ensures AmountSum(trees, Counts(Dispatched)) + AmountSum(trees, Counts(FailedUnits))
            == AmountSum(trees, Counts(OverflowSplits)) + |trees| as real
  {
    if trees == [] {
    } else {
      EndsBalance(trees[0]);
      EndsBalanceOverall(trees[1..]);
    }
  }

  /** Every row tells how its own unit fared. */
  ghost predicate RowsAccount(trees: seq<Tree>, results: map<nat, SpecialistOutput>) {
    forall u: nat :: u < |trees| ==> u in results && TreeAccount.Accounts(trees[u], results[u])
  }

  lemma OutputsAccount(trees: seq<Tree>, retries: nat, results: map<nat, SpecialistOutput>)
    requires AllValid(trees, retries)
    requires forall u: nat :: u < |trees| ==> u in results && results[u] == Output(trees[u], retries)
    ensures RowsAccount(trees, results)
  {
    forall u: nat | u < |trees| ensures TreeAccount.Accounts(trees[u], results[u]) {
      TreeAccount.OutputAccounts(trees[u], retries);
    }
  }

  /** The end of every run: when no thread can move, every unit has exactly the output its answers
      determine, however the threads were interleaved. Counted from whatever the totals were before,
      dispatched + failed = splits + units, and each token and cost total grew by the sum over the
      result rows. */
  lemma PoolOutcome(trees: seq<Tree>, retries: nat, threads: nat, maxWorkers: int, minWorkers: int,
                    before: map<Metric, real>, schedule: seq<nat>)
    requires AllValid(trees, retries) && threads > 0 && 1 <= maxWorkers && minWorkers <= maxWorkers
    requires before.Keys == METRICS && Schedule(trees, Start(trees, threads, maxWorkers, minWorkers, before), schedule)
    requires forall w: nat ::
      !Enabled(trees, Run(trees, Start(trees, threads, maxWorkers, minWorkers, before), schedule), w)
    ensures var s := Run(trees, Start(trees, threads, maxWorkers, minWorkers, before), schedule);
            && Finished(trees, s)
            && (forall u: nat :: u in s.results <==> u < |trees|)
            && (forall u: nat :: u < |trees| ==> s.results[u] == Output(trees[u], retries))
            && s.totals.Keys == METRICS
            && Growth(s, before, Counts(Dispatched)) + Growth(s, before, Counts(FailedUnits))
               == Growth(s, before, Counts(OverflowSplits)) + |trees| as real
            && (forall m :: m in METRICS && !m.Counts? ==> Growth(s, before, m) == RowSum(s.results, |trees|, m))
  {
    var start := Start(trees, threads, maxWorkers, minWorkers, before);
    StartWell(trees, retries, threads, maxWorkers, minWorkers, before);
    RunKeepsInvariant(trees, retries, start, schedule, before);
    var s := Run(trees, start, schedule);
    if !Finished(trees, s) {
      NoDeadlock(trees, retries, s);
      assert false;
    }
    assert forall w, u: nat :: !WorksOn(s.workers, w, u);
    forall m ensures PendingSum(s.workers, m) == 0.0 {
      IdleOwesNothing(s.workers, m);
    }
    assert trees[s.next..] == [];
    EndsBalanceOverall(trees);
    forall m | m in METRICS && !m.Counts? ensures Growth(s, before, m) == RowSum(s.results, |trees|, m) {
      RowsMatchAmounts(trees, retries, s.results, m);
    }
  }

  /** Once the pool is through, whatever the schedule, every unit's row tells how its dispatch went. */
  lemma PoolRows(trees: seq<Tree>, retries: nat, threads: nat, maxWorkers: int, minWorkers: int,
                 before: map<Metric, real>, schedule: seq<nat>)
    requires AllValid(trees, retries) && threads > 0 && 1 <= maxWorkers && minWorkers <= maxWorkers
    requires before.Keys == METRICS && Schedule(trees, Start(trees, threads, maxWorkers, minWorkers, before), schedule)
    requires forall w: nat ::
      !Enabled(trees, Run(trees, Start(trees, threads, maxWorkers, minWorkers, before), schedule), w)
    ensures RowsAccount(trees, Run(trees, Start(trees, threads, maxWorkers, minWorkers, before), schedule).results)
  {
    PoolOutcome(trees, retries, threads, maxWorkers, minWorkers, before, schedule);
    OutputsAccount(trees, retries, Run(trees, Start(trees, threads, maxWorkers, minWorkers, before), schedule).results);
  }
}
