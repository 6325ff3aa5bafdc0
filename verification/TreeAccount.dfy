/** What a call tree's row says about the dispatch: whose it is, how it ended and why, what was found and
    what it cost. Everything is said of the terminal sub-calls, however the splits nest. */
module TreeAccount {
  import opened Util
  import opened Findings
  import opened CallTree

  /** The tier of the first successful sub-call that names one. */
  function FirstTier(ends: seq<Tree>): Option<string> {
    if ends == [] then None
    else if ends[0].Served? && ends[0].answer.stamp.tier.Some? then ends[0].answer.stamp.tier
    else FirstTier(ends[1..])
  }

  lemma {:induction false} FirstTierAppend(a: seq<Tree>, b: seq<Tree>)
    ensures FirstTier(a + b) == if FirstTier(a).Some? then FirstTier(a) else FirstTier(b)
  {
    if a == [] {
      assert a + b == b;
    } else {
      assert (a + b)[1..] == a[1..] + b;
      FirstTierAppend(a[1..], b);
    }
  }

  lemma PairTier(a: Stamp, b: Stamp)
    ensures SumStamps([a, b]).tier == if a.tier.Some? then a.tier else b.tier
  {
    assert [a, b][1..] == [b] && [b][1..] == [];
    assert SumStamps([b]).tier == b.tier;
  }

  lemma {:induction false} TierOfFirst(t: Tree, retries: nat)
    requires Valid(t, retries)
    ensures Output(t, retries).stamp.tier == FirstTier(Terminals(t))
  {
    if !t.Split? {
      assert Terminals(t) == [t] && Terminals(t)[1..] == [];
      assert FirstTier([]) == None;
    } else {
      TierOfFirst(t.left, retries);
      TierOfFirst(t.right, retries);
      FirstTierAppend(Terminals(t.left), Terminals(t.right));
      PairTier(Output(t.left, retries).stamp, Output(t.right, retries).stamp);
    }
  }

  /** Some successful sub-call stamped this meter. */
  ghost predicate TokensStamped(ends: seq<Tree>, m: TokenMeter) {
    exists n :: n in ends && n.Served? && m in n.answer.stamp.tokens
  }

  ghost predicate CostStamped(ends: seq<Tree>, m: CostMeter) {
    exists n :: n in ends && n.Served? && m in n.answer.stamp.costs
  }

  lemma PairMeters(a: Stamp, b: Stamp)
    ensures SumStamps([a, b]).tokens.Keys == a.tokens.Keys + b.tokens.Keys
    ensures SumStamps([a, b]).costs.Keys == a.costs.Keys + b.costs.Keys
  {
    assert [a, b][1..] == [b] && [b][1..] == [];
    assert SumStamps([b]).tokens.Keys == b.tokens.Keys && SumStamps([b]).costs.Keys == b.costs.Keys;
  }

  lemma StampedOnEitherSide(a: seq<Tree>, b: seq<Tree>)
    ensures forall m :: TokensStamped(a + b, m) <==> TokensStamped(a, m) || TokensStamped(b, m)
    ensures forall m :: CostStamped(a + b, m) <==> CostStamped(a, m) || CostStamped(b, m)
  {
    assert forall n :: n in a + b <==> n in a || n in b;
  }

  /** A meter nobody stamped stays absent: it is never made up as zero. */
  lemma {:induction false} MetersStamped(t: Tree, retries: nat)
    requires Valid(t, retries)
    ensures forall m :: m in Output(t, retries).stamp.tokens <==> TokensStamped(Terminals(t), m)
    ensures forall m :: m in Output(t, retries).stamp.costs <==> CostStamped(Terminals(t), m)
  {
    if !t.Split? {
      assert t in Terminals(t);
    } else {
      MetersStamped(t.left, retries);
      MetersStamped(t.right, retries);
      PairMeters(Output(t.left, retries).stamp, Output(t.right, retries).stamp);
      StampedOnEitherSide(Terminals(t.left), Terminals(t.right));
    }
  }

  /** Why a unit came back failed without anybody having answered. */
  function FailureReason(t: Tree): string
    requires t.GaveUp? || t.TooBig?
  {
    if t.TooBig? then "context overflow; single file too large"
    else if t.faults == [] || t.faults[|t.faults| - 1].RateLimited? then "rate-limited after retries"
    else "error after retries: " + t.faults[|t.faults| - 1].kind
  }

  /** The specialist's own words stand; an answer without a status counts as completed, one without an
      id as the leaf's. Nothing but giving up, a single file that overflows, or the specialist's own
      word makes a unit failed, and the two without an answer say why. */
  ghost predicate Accounts(t: Tree, o: SpecialistOutput) {
    && (o.status == Failed <==> t.GaveUp? || t.TooBig? || (t.Served? && t.answer.status == Some(Failed)))
    && (o.status == Skipped <==> t.Served? && t.answer.status == Some(Skipped))
    && (o.id == t.unit.leafId || (t.Served? && t.answer.id == Some(o.id)))
    && (t.Served? && t.answer.id.Some? ==> t.answer.id == Some(o.id))
    && (t.Served? ==> o.skipReason == t.answer.skipReason)
    && (t.GaveUp? || t.TooBig? ==> o.skipReason == Some(FailureReason(t)))
    && (t.Split? ==> o.skipReason == None)
    && o.findings == Flatten(Map(ReportsOf, Terminals(t)))
    && o.stamp.tier == FirstTier(Terminals(t))
    && (forall m :: m in o.stamp.tokens <==> TokensStamped(Terminals(t), m))
    && (forall m :: m in o.stamp.costs <==> CostStamped(Terminals(t), m))
    && (forall m :: TokensOf(o.stamp, m) == Tokens(t, m))
    && (forall m :: CostOf(o.stamp, m) == Cost(t, m))
  }

  /** What every valid call tree hands back. */
  lemma OutputAccounts(t: Tree, retries: nat)
    requires Valid(t, retries)
    ensures Accounts(t, Output(t, retries))
  {
    FindingsInOrder(t, retries);
    TierOfFirst(t, retries);
    MetersStamped(t, retries);
    CostConserved(t, retries);
  }

  // ---- how it went -------------------------------------------------------------------------

  function ServedEnds(ends: seq<Tree>): nat {
    if ends == [] then 0 else (if ends[0].Served? then 1 else 0) + ServedEnds(ends[1..])
  }

  lemma {:induction false} ServedEndsAppend(a: seq<Tree>, b: seq<Tree>)
    ensures ServedEnds(a + b) == ServedEnds(a) + ServedEnds(b)
  {
    if a == [] {
      assert a + b == b;
    } else {
      assert (a + b)[1..] == a[1..] + b;
      ServedEndsAppend(a[1..], b);
    }
  }

  /** Every sub-call that answered is counted as dispatched and every other one as failed. */
  lemma {:induction false} EndsCounted(t: Tree)
    ensures Count(t, Dispatched) == ServedEnds(Terminals(t))
    ensures Count(t, FailedUnits) == |Terminals(t)| - ServedEnds(Terminals(t))
    ensures Count(t, OverflowSplits) == |Terminals(t)| - 1
  {
    if !t.Split? {
      assert Terminals(t) == [t] && Terminals(t)[1..] == [];
      assert ServedEnds([]) == 0;
    } else {
      EndsCounted(t.left);
      EndsCounted(t.right);
      ServedEndsAppend(Terminals(t.left), Terminals(t.right));
    }
  }

  lemma {:induction false} RateLimitsAreOccurrences(faults: seq<Fault>)
    ensures RateLimits(faults) == multiset(faults)[RateLimited]
  {
    if faults == [] {
    } else {
      PrefixSnoc(faults, |faults|);
      assert faults[..|faults|] == faults;
      RateLimitsAreOccurrences(faults[..|faults| - 1]);
    }
  }

  /** The two halves of a unit are its files in order, cut so that they differ by one file at most. */
  lemma HalvesBalanced(u: ReviewUnit)
    ensures Halves(u).None? <==> |u.files| <= 1
    ensures Halves(u).Some? ==>
      var (l, r) := Halves(u).value;
      && l.files + r.files == u.files && |l.files| <= |r.files| <= |l.files| + 1
      && l == u.(files := l.files) && r == u.(files := r.files)
  {
  }

  function Depth(t: Tree): nat {
    if t.Split? then 1 + Max(Depth(t.left), Depth(t.right)) else 0
  }

  /** Halving is fast: splits nest no deeper than the logarithm of the number of files, rounded up. */
  lemma {:induction false} DepthLogarithmic(t: Tree, retries: nat)
    requires Valid(t, retries)
    ensures t.Split? ==> Pow2(Depth(t) - 1) < |t.unit.files|
  {
    if !t.Split? {
    } else {
      HalvesBalanced(t.unit);
      DepthLogarithmic(t.left, retries);
      DepthLogarithmic(t.right, retries);
      if Depth(t) > 1 {
        assert Pow2(Depth(t) - 1) == 2 * Pow2(Depth(t) - 2);
      }
    }
  }
}
