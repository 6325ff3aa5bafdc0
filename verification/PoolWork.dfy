/** How much a run of the pool does, in calls and in back-off, whatever the schedule. */
module PoolWork {
  import opened Util
  import opened Findings
  import opened CallTree
  import opened Limiter
  import opened Pool
  import opened PoolProofs

  /** Entries into the hook, and back-off slept in multiples of the base. */
  datatype Kind = HookCalls | BackoffUnits

  /** Back-off of a whole tree: 1 + 2 + 4 + ... for the sleeps of each node. */
  function UnitsSlept(t: Tree): nat {
    Pow2(Sleeps(t)) - 1 + if t.Split? then UnitsSlept(t.left) + UnitsSlept(t.right) else 0
  }

  lemma Distributes(k: int, a: int, b: int)
    ensures k * (a + b) == k * a + k * b
  {
  }

  lemma {:induction false} BackoffInUnits(base: real, k: nat)
    ensures Backoff(base, k) == Times(base, Pow2(k) - 1)
  {
    if k == 0 {
    } else {
      BackoffInUnits(base, k - 1);
      TimesAdd(base, Pow2(k - 1) - 1, Pow2(k - 1));
      TimesIsProduct(base, Pow2(k - 1));
    }
  }

  /** The back-off of a tree is its units, each one base long. */
  lemma {:induction false} SleptInUnits(t: Tree, base: real)
    ensures Slept(t, base) == Times(base, UnitsSlept(t))
  {
    BackoffInUnits(base, Sleeps(t));
    if !t.Split? {
    } else {
      SleptInUnits(t.left, base);
      SleptInUnits(t.right, base);
      TimesAdd(base, UnitsSlept(t.left), UnitsSlept(t.right));
      TimesAdd(base, Pow2(Sleeps(t)) - 1, UnitsSlept(t.left) + UnitsSlept(t.right));
    }
  }

  function Whole(t: Tree, kind: Kind): int {
    if kind.HookCalls? then Calls(t) else UnitsSlept(t)
  }

  /** Back-off of the halves that have not started yet. */
  function StackUnits(stack: seq<Frame>): int {
    if stack == [] then 0
    else (if stack[0].InLeft? then UnitsSlept(stack[0].right) else 0) + StackUnits(stack[1..])
  }

  function StackWhole(stack: seq<Frame>, kind: Kind): int {
    if kind.HookCalls? then StackCalls(stack) else StackUnits(stack)
  }

  /** What a thread's unit still has before it. */
  function Due(w: Worker, kind: Kind): int {
    match w
    case Idle => 0
    case Busy(t) =>
      Whole(t.current, kind) + StackWhole(t.stack, kind)
      - if kind.BackoffUnits? then Pow2(t.attempt) - 1
        else t.attempt + if t.phase.Calling? || t.phase.Returned? || t.phase.Settling? then 1 else 0
  }

  predicate GivesUp(t: Task) { t.current.GaveUp? && t.attempt + 1 == |t.current.faults| }

  /** What one step of a thread does: it enters the hook, or starts a back-off of base * 2^attempt. */
  function Done(s: State, w: nat, kind: Kind): int
    requires w < |s.workers|
  {
    match s.workers[w]
    case Idle => 0
    case Busy(t) =>
      match kind
      case HookCalls => if t.phase.Ready? && s.permits.inflight < s.permits.limit then 1 else 0
      case BackoffUnits =>
        if t.phase.Settling? && t.attempt < |t.current.faults| && !GivesUp(t) then Pow2(t.attempt) else 0
  }

  function DoneBy(trees: seq<Tree>, s: State, schedule: seq<nat>, kind: Kind): int
    requires Schedule(trees, s, schedule)
    decreases |schedule|
  {
    if schedule == [] then 0
    else Done(s, schedule[0], kind) + DoneBy(trees, Next(trees, s, schedule[0]), schedule[1..], kind)
  }

  // ---- one step ----------------------------------------------------------------------------

  lemma {:induction false} ResumeUnits(stack: seq<Frame>, done: Tree, out: SpecialistOutput)
    ensures match Resume(stack, done, out)
            case Continue(st, cur) => StackUnits(stack) == UnitsSlept(cur) + StackUnits(st)
            case Finish(_) => StackUnits(stack) == 0
    decreases |stack|
  {
    if stack == [] {
    } else {
      match stack[0]
      case InLeft(u, faults, right) =>
        assert ([InRight(u, faults, done, out)] + stack[1..])[1..] == stack[1..];
      case InRight(u, faults, left, leftOut) =>
        ResumeUnits(stack[1..], Split(u, faults, left, done),
                    SpecialistOutput(u.leafId, Completed, leftOut.findings + out.findings, None,
                                     SumStamps([leftOut.stamp, out.stamp])));
    }
  }

  lemma ReturningDue(s: State, w: nat, t: Task, out: SpecialistOutput, kind: Kind)
    requires w < |s.workers|
    ensures |Returning(s, w, t, out).workers| == |s.workers|
    ensures Due(Returning(s, w, t, out).workers[w], kind) == StackWhole(t.stack, kind)
  {
    ResumeOwes(t.stack, t.current, out);
    ResumeUnits(t.stack, t.current, out);
  }

  lemma SettleDue(s: State, w: nat, t: Task, kind: Kind)
    requires w < |s.workers| && s.workers[w] == Busy(t) && t.phase.Settling? && t.attempt <= |t.current.faults|
    requires t.current.GaveUp? ==> t.attempt < |t.current.faults|
    ensures |Settle(s, w, t).workers| == |s.workers|
    ensures Due(Settle(s, w, t).workers[w], kind) + Done(s, w, kind) == Due(s.workers[w], kind)
  {
    var n := t.current;
    if t.attempt < |n.faults| {
      var s2 := Struck(s, n.faults[t.attempt]);
      if GivesUp(t) {
        ReturningDue(s2.(totals := Charge(s2.totals, m => EndAmount(n, m))), w, t, TerminalOutput(n), kind);
      } else {
        RetrySettles(s, w, t);
      }
    } else {
      var s1 := s.(totals := Charge(s.totals, m => EndAmount(n, m)));
      match n {
        case Split(u, faults, l, r) =>
          assert ([InLeft(u, faults, r)] + t.stack)[1..] == t.stack;
        case Served(_, _, _) =>
          ReturningDue(s1.(permits := Rewarded(s.permits), workers := Map(Notified, s.workers)), w, t,
                       TerminalOutput(n), kind);
        case _ => ReturningDue(s1, w, t, TerminalOutput(n), kind);
      }
    }
  }

  lemma ReadyDue(trees: seq<Tree>, s: State, w: nat, kind: Kind)
    requires Enabled(trees, s, w) && s.workers[w].Busy? && s.workers[w].task.phase.Ready?
    ensures |Next(trees, s, w).workers| == |s.workers|
    ensures Due(Next(trees, s, w).workers[w], kind) + Done(s, w, kind) == Due(s.workers[w], kind)
  {
  }

  lemma LocalDue(trees: seq<Tree>, s: State, w: nat, kind: Kind)
    requires Enabled(trees, s, w) && s.workers[w].Busy? && !s.workers[w].task.phase.Settling?
    ensures |Next(trees, s, w).workers| == |s.workers|
    ensures Due(Next(trees, s, w).workers[w], kind) + Done(s, w, kind) == Due(s.workers[w], kind)
  {
    if s.workers[w].task.phase.Ready? {
      ReadyDue(trees, s, w, kind);
    }
  }

  lemma PickDue(trees: seq<Tree>, s: State, w: nat, kind: Kind)
    requires Enabled(trees, s, w) && s.workers[w].Idle?
    ensures |Next(trees, s, w).workers| == |s.workers|
    ensures Due(Next(trees, s, w).workers[w], kind) + Done(s, w, kind) == Whole(trees[s.next], kind)
  {
  }

  lemma StepDue(trees: seq<Tree>, retries: nat, s: State, w: nat, kind: Kind)
    requires Control(trees, retries, s) && Enabled(trees, s, w)
    ensures |Next(trees, s, w).workers| == |s.workers|
    ensures Due(Next(trees, s, w).workers[w], kind) + Done(s, w, kind)
            == Due(s.workers[w], kind) + if s.workers[w].Idle? then Whole(trees[s.next], kind) else 0
  {
    if s.workers[w].Idle? {
      PickDue(trees, s, w, kind);
    } else if s.workers[w].task.phase.Settling? {
      SettleDue(s, w, s.workers[w].task, kind);
    } else {
      LocalDue(trees, s, w, kind);
    }
  }

  /** What the threads and the queue still have before them. */
  function Left(trees: seq<Tree>, s: State, kind: Kind): int
    requires s.next <= |trees|
  {
    Sum((b: Worker) => Due(b, kind), s.workers) + Sum((t: Tree) => Whole(t, kind), trees[s.next..])
  }

  lemma OthersDue(s: State, w: nat, b: Worker, kind: Kind)
    requires w < |s.workers|
    ensures var due := (x: Worker) => Due(x, kind);
      Sum(due, Others(s, w)[w := b]) == Sum(due, s.workers) - Due(s.workers[w], kind) + Due(b, kind)
  {
    var due, o := (x: Worker) => Due(x, kind), Others(s, w);
    SumPointwise(due, s.workers, o);
    SumUpdate(due, o, w, b);
    assert due(o[w]) == due(s.workers[w]);
  }

  /** What a step does is gone from what is left, and nothing else is. */
  lemma StepPays(trees: seq<Tree>, retries: nat, s: State, w: nat, kind: Kind)
    requires Control(trees, retries, s) && Enabled(trees, s, w)
    ensures Next(trees, s, w).next <= |trees|
    ensures Left(trees, Next(trees, s, w), kind) + Done(s, w, kind) == Left(trees, s, kind)
  {
    StepShape(trees, s, w);
    StepDue(trees, retries, s, w, kind);
    OthersDue(s, w, Next(trees, s, w).workers[w], kind);
    if s.workers[w].Idle? {
      assert trees[s.next..] == [trees[s.next]] + trees[s.next + 1..];
    }
  }

  // ---- every run ---------------------------------------------------------------------------

  lemma {:induction false} RunPays(trees: seq<Tree>, retries: nat, s: State, schedule: seq<nat>, kind: Kind)
    requires Control(trees, retries, s) && Schedule(trees, s, schedule)
    ensures Run(trees, s, schedule).next <= |trees|
    ensures Left(trees, Run(trees, s, schedule), kind) + DoneBy(trees, s, schedule, kind) == Left(trees, s, kind)
    decreases |schedule|
  {
    if schedule == [] {
    } else {
      StepKeepsControl(trees, retries, s, schedule[0]);
      StepPays(trees, retries, s, schedule[0], kind);
      RunPays(trees, retries, Next(trees, s, schedule[0]), schedule[1..], kind);
    }
  }

  /** The most nodes the splits of a unit can unfold. */
  function MostNodes(t: Tree): int { 2 * Max(|t.unit.files|, 1) - 1 }

  function PerNode(retries: nat, kind: Kind): nat {
    if kind.HookCalls? then retries + 1 else Pow2(retries) - 1
  }

  lemma {:induction false} UnitsPerNode(t: Tree, retries: nat)
    requires Valid(t, retries)
    ensures UnitsSlept(t) <= (Pow2(retries) - 1) * Nodes(t)
  {
    Pow2Monotone(Sleeps(t), retries);
    if t.Split? {
      UnitsPerNode(t.left, retries);
      UnitsPerNode(t.right, retries);
      DistributeNodes(Pow2(retries) - 1, Nodes(t.left), Nodes(t.right));
    } else {
      assert (Pow2(retries) - 1) * 1 == Pow2(retries) - 1;
    }
  }

  lemma WholeBound(t: Tree, retries: nat, kind: Kind)
    requires Valid(t, retries)
    ensures Whole(t, kind) <= PerNode(retries, kind) * MostNodes(t)
  {
    NodesBound(t, retries);
    CallsPerNode(t, retries);
    UnitsPerNode(t, retries);
    MulMonotone(PerNode(retries, kind), Nodes(t), MostNodes(t));
  }

  lemma {:induction false} WholeBoundOverall(trees: seq<Tree>, retries: nat, kind: Kind)
    requires AllValid(trees, retries)
    ensures Sum((t: Tree) => Whole(t, kind), trees) <= PerNode(retries, kind) * Sum(MostNodes, trees)
  {
    if trees == [] {
    } else {
      WholeBound(trees[0], retries, kind);
      WholeBoundOverall(trees[1..], retries, kind);
      Distributes(PerNode(retries, kind), MostNodes(trees[0]), Sum(MostNodes, trees[1..]));
    }
  }

  lemma {:induction false} NothingDue(ws: seq<Worker>, kind: Kind)
    requires forall w :: 0 <= w < |ws| ==> ws[w].Idle?
    ensures Sum((b: Worker) => Due(b, kind), ws) == 0
  {
    if ws == [] {
    } else {
      NothingDue(ws[1..], kind);
    }
  }

  /** Over every complete run, however the threads were interleaved: the hook is entered exactly as
      often as the answers demand, at most R + 1 times for each node the files allow, and the back-off
      slept is exactly that of the answers, at most base * (2^R - 1) for each such node. */
  lemma PoolWorkDone(trees: seq<Tree>, retries: nat, threads: nat, maxWorkers: int, minWorkers: int,
                                        before: map<Metric, real>, schedule: seq<nat>, kind: Kind)
    requires AllValid(trees, retries) && threads > 0 && 1 <= maxWorkers && minWorkers <= maxWorkers
    requires before.Keys == METRICS && Schedule(trees, Start(trees, threads, maxWorkers, minWorkers, before), schedule)
    requires forall w: nat ::
      !Enabled(trees, Run(trees, Start(trees, threads, maxWorkers, minWorkers, before), schedule), w)
    ensures var done := DoneBy(trees, Start(trees, threads, maxWorkers, minWorkers, before), schedule, kind);
      && done == Sum((t: Tree) => Whole(t, kind), trees)
      && done <= PerNode(retries, kind) * Sum(MostNodes, trees)
  {
    var start := Start(trees, threads, maxWorkers, minWorkers, before);
    StartWell(trees, retries, threads, maxWorkers, minWorkers, before);
    PoolOutcome(trees, retries, threads, maxWorkers, minWorkers, before, schedule);
    RunPays(trees, retries, start, schedule, kind);
    NothingDue(start.workers, kind);
    NothingDue(Run(trees, start, schedule).workers, kind);
    assert trees[0..] == trees && trees[|trees|..] == [];
    WholeBoundOverall(trees, retries, kind);
  }
}
