/** Everything one unit's dispatch can do, as a value: the retries each node saw and the binary tree
    its overflow splits unfolded. A tree is valid for a retry budget exactly when the retry loop can
    produce it, so a law of all valid trees is a law of every sequence of answers. */
module CallTree {
  import opened Util
  import opened Findings

  /** The retryable ways a dispatch call can fail. */
  datatype Fault = RateLimited | Crashed(kind: string)

  /** What the dispatch hook returned; the runner fills in the fields it left out. */
  datatype Answer = Answer(id: Option<string>, status: Option<Status>, findings: Option<seq<Report>>,
                           skipReason: Option<string>, stamp: Stamp)

  datatype Tree =
    | Served(unit: ReviewUnit, faults: seq<Fault>, answer: Answer)
    | GaveUp(unit: ReviewUnit, faults: seq<Fault>)
    | TooBig(unit: ReviewUnit, faults: seq<Fault>)
    | Split(unit: ReviewUnit, faults: seq<Fault>, left: Tree, right: Tree)

  function Halves(u: ReviewUnit): Option<(ReviewUnit, ReviewUnit)> {
    if |u.files| <= 1 then None
    else
      var mid := |u.files| / 2;
      Some((u.(files := u.files[..mid]), u.(files := u.files[mid..])))
  }

  predicate Valid(t: Tree, retries: nat) {
    match t
    case Served(_, faults, _) => |faults| <= retries
    case GaveUp(_, faults) => |faults| == retries + 1
    case TooBig(u, faults) => |faults| <= retries && Halves(u).None?
    case Split(u, faults, l, r) =>
      |faults| <= retries && Halves(u) == Some((l.unit, r.unit)) && Valid(l, retries) && Valid(r, retries)
  }

  function Filled(a: Answer, leafId: string): SpecialistOutput {
    SpecialistOutput(a.id.GetOr(leafId), a.status.GetOr(Completed), a.findings.GetOr([]), a.skipReason, a.stamp)
  }

  function FailedOutput(leafId: string, reason: string): SpecialistOutput {
    SpecialistOutput(leafId, Failed, [], Some(reason), NO_STAMP)
  }

  function GiveUpReason(last: Fault): string {
    match last
    case RateLimited => "rate-limited after retries"
    case Crashed(kind) => "error after retries: " + kind
  }

  const TOO_BIG_REASON := "context overflow; single file too large"

  // ---- counters and cost -------------------------------------------------------------------

  /** A key is summed over the results that carry it and stays absent when none does. */
  function SumStamps(stamps: seq<Stamp>): Stamp {
    if stamps == [] then NO_STAMP
    else
      var s, rest := stamps[0], SumStamps(stamps[1..]);
      Stamp(map m | m in s.tokens.Keys + rest.tokens.Keys :: TokensOf(s, m) + TokensOf(rest, m),
            map m | m in s.costs.Keys + rest.costs.Keys :: CostOf(s, m) + CostOf(rest, m),
            if s.tier.Some? then s.tier else rest.tier)
  }

  /** The integer counters a worker thread bumps. */
  datatype Counter = Dispatched | FailedUnits | Retries | RateLimitEvents | OverflowSplits

  function RateLimits(faults: seq<Fault>): (n: nat)
    ensures n <= |faults|
  {
    if faults == [] then 0
    else RateLimits(faults[..|faults| - 1]) + (if faults[|faults| - 1].RateLimited? then 1 else 0)
  }

  function FaultCount(faults: seq<Fault>, c: Counter): nat {
    if c.Retries? then |faults| else if c.RateLimitEvents? then RateLimits(faults) else 0
  }

  /** The counter a node moves when it ends or splits. */
  function EndCounter(t: Tree): Counter {
    match t
    case Served(_, _, _) => Dispatched
    case GaveUp(_, _) => FailedUnits
    case TooBig(_, _) => FailedUnits
    case Split(_, _, _, _) => OverflowSplits
  }

  /** What a unit's whole tree adds to a counter. */
  function Count(t: Tree, c: Counter): nat {
    FaultCount(t.faults, c) + (if c == EndCounter(t) then 1 else 0)
    + (if t.Split? then Count(t.left, c) + Count(t.right, c) else 0)
  }

  function Tokens(t: Tree, m: TokenMeter): int {
    match t
    case Served(_, _, answer) => TokensOf(answer.stamp, m)
    case Split(_, _, l, r) => Tokens(l, m) + Tokens(r, m)
    case _ => 0
  }

  function Cost(t: Tree, m: CostMeter): real {
    match t
    case Served(_, _, answer) => CostOf(answer.stamp, m)
    case Split(_, _, l, r) => Cost(l, m) + Cost(r, m)
    case _ => 0.0
  }

  // ---- what comes back ---------------------------------------------------------------------

  function Output(t: Tree, retries: nat): SpecialistOutput
    requires Valid(t, retries)
  {
    match t
    case Served(u, _, answer) => Filled(answer, u.leafId)
    case GaveUp(u, faults) => FailedOutput(u.leafId, GiveUpReason(faults[|faults| - 1]))
    case TooBig(u, _) => FailedOutput(u.leafId, TOO_BIG_REASON)
    case Split(u, _, l, r) =>
      var a, b := Output(l, retries), Output(r, retries);
      SpecialistOutput(u.leafId, Completed, a.findings + b.findings, None, SumStamps([a.stamp, b.stamp]))
  }

  /** The nodes whose call was the last word, left to right. */
  function Terminals(t: Tree): seq<Tree> {
    if t.Split? then Terminals(t.left) + Terminals(t.right) else [t]
  }

  function FilesOf(t: Tree): seq<string> { t.unit.files }

  function ReportsOf(t: Tree): seq<Report> {
    if t.Served? then t.answer.findings.GetOr([]) else []
  }

  /** The files some successful call was asked to review. */
  function Reviewed(t: Tree): seq<string> {
    match t
    case Served(u, _, _) => u.files
    case Split(_, _, l, r) => Reviewed(l) + Reviewed(r)
    case _ => []
  }

  function Nodes(t: Tree): nat {
    if t.Split? then 1 + Nodes(t.left) + Nodes(t.right) else 1
  }

  function Calls(t: Tree): (n: nat)
  {
    match t
    case GaveUp(_, faults) => |faults|
    case Split(_, faults, l, r) => |faults| + 1 + Calls(l) + Calls(r)
    case _ => |t.faults| + 1
  }

  /** Back-off slept after `k` retryable faults: base * 2^0, base * 2^1, ... */
  function Backoff(base: real, k: nat): real {
    if k == 0 then 0.0 else Backoff(base, k - 1) + base * (Pow2(k - 1) as real)
  }

  function Sleeps(t: Tree): nat {
    if t.GaveUp? && t.faults != [] then |t.faults| - 1 else |t.faults|
  }

  function Slept(t: Tree, base: real): real {
    Backoff(base, Sleeps(t)) + (if t.Split? then Slept(t.left, base) + Slept(t.right, base) else 0.0)
  }

  // ---- laws --------------------------------------------------------------------------------

  lemma MapAppend<A, B>(f: A -> B, a: seq<A>, b: seq<A>)
    ensures Map(f, a + b) == Map(f, a) + Map(f, b)
  {
  }

  /** No file is lost or repeated: the terminal sub-units' files, left to right, are the unit's. */
  lemma {:induction false} TerminalsCoverUnit(t: Tree, retries: nat)
    requires Valid(t, retries)
    ensures Flatten(Map(FilesOf, Terminals(t))) == t.unit.files
    ensures forall n :: n in Terminals(t) ==> !n.Split? && Valid(n, retries) && n.unit.leafId == t.unit.leafId
  {
    if !t.Split? {
    } else {
      TerminalsCoverUnit(t.left, retries);
      TerminalsCoverUnit(t.right, retries);
      MapAppend(FilesOf, Terminals(t.left), Terminals(t.right));
      FlattenAppend(Map(FilesOf, Terminals(t.left)), Map(FilesOf, Terminals(t.right)));
    }
  }

  /** The findings handed back are those of the successful sub-calls, in left-to-right order. */
  lemma {:induction false} FindingsInOrder(t: Tree, retries: nat)
    requires Valid(t, retries)
    ensures Output(t, retries).findings == Flatten(Map(ReportsOf, Terminals(t)))
  {
    if !t.Split? {
    } else {
      FindingsInOrder(t.left, retries);
      FindingsInOrder(t.right, retries);
      MapAppend(ReportsOf, Terminals(t.left), Terminals(t.right));
      FlattenAppend(Map(ReportsOf, Terminals(t.left)), Map(ReportsOf, Terminals(t.right)));
    }
  }

  /** Every split adds one terminal: dispatched + failed = overflow splits + 1. */
  lemma {:induction false} EndsBalance(t: Tree)
    ensures Count(t, Dispatched) + Count(t, FailedUnits) == Count(t, OverflowSplits) + 1
  {
    if !t.Split? {
    } else {
      EndsBalance(t.left);
      EndsBalance(t.right);
    }
  }

  lemma PairStamp(a: Stamp, b: Stamp)
    ensures forall m :: TokensOf(SumStamps([a, b]), m) == TokensOf(a, m) + TokensOf(b, m)
    ensures forall m :: CostOf(SumStamps([a, b]), m) == CostOf(a, m) + CostOf(b, m)
  {
    assert [a, b][1..] == [b];
    assert [b][1..] == [];
    assert SumStamps([b]).tokens == b.tokens && SumStamps([b]).costs == b.costs;
  }

  /** The stamp on the returned row carries exactly what the successful sub-calls were charged,
      however deeply the splits nest; an absent key counts as zero. */
  lemma {:induction false} CostConserved(t: Tree, retries: nat)
    requires Valid(t, retries)
    ensures forall m :: TokensOf(Output(t, retries).stamp, m) == Tokens(t, m)
    ensures forall m :: CostOf(Output(t, retries).stamp, m) == Cost(t, m)
  {
    if !t.Split? {
    } else {
      CostConserved(t.left, retries);
      CostConserved(t.right, retries);
      PairStamp(Output(t.left, retries).stamp, Output(t.right, retries).stamp);
    }
  }

  lemma {:induction false} NodesBound(t: Tree, retries: nat)
    requires Valid(t, retries)
    ensures Nodes(t) <= 2 * Max(|t.unit.files|, 1) - 1
  {
    if !t.Split? {
    } else {
      NodesBound(t.left, retries);
      NodesBound(t.right, retries);
    }
  }

  lemma DistributeNodes(k: int, l: int, r: int)
    ensures k * (1 + l + r) == k + k * l + k * r
  {
  }

  lemma {:induction false} CallsPerNode(t: Tree, retries: nat)
    requires Valid(t, retries)
    ensures Calls(t) <= (retries + 1) * Nodes(t)
  {
    if !t.Split? {
    } else {
      CallsPerNode(t.left, retries);
      CallsPerNode(t.right, retries);
      DistributeNodes(retries + 1, Nodes(t.left), Nodes(t.right));
    }
  }

  lemma MulMonotone(a: nat, b: int, c: int)
    requires b <= c
    ensures a * b <= a * c
  {
  }

  lemma RealMulMonotone(a: real, b: real, c: real)
    requires a >= 0.0 && b <= c
    ensures a * b <= a * c
  {
  }

  /** A unit of n files costs at most (R+1)(2n-1) dispatch calls, whatever the answers are. */
  lemma WorkBound(t: Tree, retries: nat)
    requires Valid(t, retries)
    ensures Calls(t) <= (retries + 1) * (2 * Max(|t.unit.files|, 1) - 1)
  {
    CallsPerNode(t, retries);
    NodesBound(t, retries);
    MulMonotone(retries + 1, Nodes(t), 2 * Max(|t.unit.files|, 1) - 1);
  }

  lemma {:induction false} BackoffClosedForm(base: real, k: nat)
    ensures Backoff(base, k) == base * ((Pow2(k) - 1) as real)
  {
    if k == 0 {
    } else {
      BackoffClosedForm(base, k - 1);
      var p := Pow2(k - 1) as real;
      assert (Pow2(k) - 1) as real == 2.0 * p - 1.0;
      assert base * (2.0 * p - 1.0) == base * (p - 1.0) + base * p;
    }
  }

  lemma {:induction false} Pow2Monotone(a: nat, b: nat)
    requires a <= b
    ensures Pow2(a) <= Pow2(b)
  {
    if a == b {
    } else {
      Pow2Monotone(a, b - 1);
    }
  }

  /** The most one node of the split tree can sleep. */
  function NodeBudget(base: real, retries: nat): real {
    base * ((Pow2(retries) - 1) as real)
  }

  lemma NodeSleepBound(t: Tree, retries: nat, base: real)
    requires Valid(t, retries) && base >= 0.0
    ensures Backoff(base, Sleeps(t)) <= NodeBudget(base, retries)
  {
    BackoffClosedForm(base, Sleeps(t));
    Pow2Monotone(Sleeps(t), retries);
    RealMulMonotone(base, (Pow2(Sleeps(t)) - 1) as real, (Pow2(retries) - 1) as real);
  }

  /** `n` times `k`, by repeated addition. */
  function Times(k: real, n: nat): real {
    if n == 0 then 0.0 else k + Times(k, n - 1)
  }

  lemma {:induction false} TimesAdd(k: real, a: nat, b: nat)
    ensures Times(k, a + b) == Times(k, a) + Times(k, b)
  {
    if a == 0 {
    } else {
      TimesAdd(k, a - 1, b);
    }
  }

  lemma {:induction false} TimesIsProduct(k: real, n: nat)
    ensures Times(k, n) == k * (n as real)
  {
    if n == 0 {
    } else {
      TimesIsProduct(k, n - 1);
      assert n as real == 1.0 + (n - 1) as real;
      assert k * (1.0 + (n - 1) as real) == k + k * ((n - 1) as real);
    }
  }

  lemma {:induction false} SleepPerNode(t: Tree, retries: nat, base: real)
    requires Valid(t, retries) && base >= 0.0
    ensures Slept(t, base) <= Times(NodeBudget(base, retries), Nodes(t))
  {
    NodeSleepBound(t, retries, base);
    var k := NodeBudget(base, retries);
    match t
    case Split(_, _, l, r) =>
      SleepPerNode(l, retries, base);
      SleepPerNode(r, retries, base);
      TimesAdd(k, Nodes(l), Nodes(r));
      assert Times(k, Nodes(t)) == k + Times(k, Nodes(l) + Nodes(r));
    case _ =>
      assert Times(k, 1) == k + Times(k, 0);
  }

  lemma NodeBudgetNonNegative(base: real, retries: nat)
    requires base >= 0.0
    ensures NodeBudget(base, retries) >= 0.0
  {
    RealMulMonotone(base, 0.0, (Pow2(retries) - 1) as real);
  }

  lemma {:induction false} TimesMonotone(k: real, a: nat, b: nat)
    requires k >= 0.0 && a <= b
    ensures Times(k, a) <= Times(k, b)
  {
    if a == b {
    } else {
      TimesMonotone(k, a, b - 1);
    }
  }

  lemma {:induction false} TimesWithin(slept: real, k: real, nodes: nat, most: nat)
    requires slept <= Times(k, nodes) && k >= 0.0 && nodes <= most
    ensures slept <= k * (most as real)
  {
    TimesMonotone(k, nodes, most);
    TimesIsProduct(k, most);
  }

  /** A whole unit sleeps at most base * (2^R - 1) for each node its splits can unfold. */
  lemma {:induction false} SleepBound(t: Tree, retries: nat, base: real)
    requires Valid(t, retries) && base >= 0.0
    ensures Slept(t, base) <= NodeBudget(base, retries) * ((2 * Max(|t.unit.files|, 1) - 1) as real)
  {
    SleepPerNode(t, retries, base);
    NodesBound(t, retries);
    NodeBudgetNonNegative(base, retries);
    TimesWithin(Slept(t, base), NodeBudget(base, retries), Nodes(t), 2 * Max(|t.unit.files|, 1) - 1);
  }

  lemma HalvesFiles(t: Tree, retries: nat)
    requires Valid(t, retries) && t.Split?
    ensures t.unit.files == t.left.unit.files + t.right.unit.files
    ensures t.left.unit.files != [] && t.right.unit.files != []
  {
  }

  lemma {:induction false} FailuresCounted(t: Tree, retries: nat)
    requires Valid(t, retries)
    ensures |Reviewed(t)| + Count(t, FailedUnits) <= Max(|t.unit.files|, 1)
  {
    if !t.Split? {
    } else {
      HalvesFiles(t, retries);
      FailuresCounted(t.left, retries);
      FailuresCounted(t.right, retries);
    }
  }

  lemma {:induction false} AllReviewed(t: Tree, retries: nat)
    requires Valid(t, retries) && Count(t, FailedUnits) == 0
    ensures Reviewed(t) == t.unit.files
  {
    if !t.Split? {
    } else {
      HalvesFiles(t, retries);
      AllReviewed(t.left, retries);
      AllReviewed(t.right, retries);
    }
  }

  /** Every failed sub-call hides a file, or is the one call of a unit that had none. */
  lemma {:induction false} FailuresHideFiles(t: Tree, retries: nat)
    requires Valid(t, retries)
    ensures |Reviewed(t)| + Count(t, FailedUnits) <= Max(|t.unit.files|, 1)
    ensures Count(t, FailedUnits) == 0 ==> Reviewed(t) == t.unit.files
  {
    FailuresCounted(t, retries);
    if Count(t, FailedUnits) == 0 {
      AllReviewed(t, retries);
    }
  }

  /** A split unit always reports `completed`; its files were all reviewed exactly when no
      sub-call of it failed. */
  lemma SplitReviewedIff(t: Tree, retries: nat)
    requires Valid(t, retries) && t.Split?
    ensures Output(t, retries).status == Completed
    ensures Reviewed(t) == t.unit.files <==> Count(t, FailedUnits) == 0
  {
    FailuresHideFiles(t, retries);
  }

  /** Such trees exist for every unit of two files or more: one half served, the other given up. */
  lemma CompletedUnreviewed(u: ReviewUnit, retries: nat, answer: Answer) returns (t: Tree)
    requires |u.files| >= 2
    ensures Valid(t, retries) && t.unit == u && t.Split?
    ensures Output(t, retries).status == Completed && Count(t, FailedUnits) == 1 && Reviewed(t) != u.files
  {
    var (l, r) := Halves(u).value;
    var faults := seq(retries + 1, _ => RateLimited);
    t := Split(u, [], Served(l, [], answer), GaveUp(r, faults));
    assert Reviewed(t) == l.files;
  }
}
