/** The adaptive concurrency limiter: a permit counter whose limit halves on a rate limit and grows
    by one on a success. `Permits` is its state as a value, so that the thread pool can be
    reasoned about step by step; `AdaptiveLimiter` is the object whose fields are updated. */
module Limiter {
  import opened Util

  datatype Permits = Permits(limit: int, max: int, min: int, inflight: int, statsMin: int, statsMax: int)

  function Initial(limit: int, minimum: int): Permits {
    Permits(limit, limit, Max(1, minimum), 0, limit, limit)
  }

  function Penalized(p: Permits): Permits {
    var lowered := Max(p.min, p.limit / 2);
    p.(limit := lowered, statsMin := Min(p.statsMin, lowered))
  }

  function Rewarded(p: Permits): Permits {
    if p.limit < p.max
    then p.(limit := p.limit + 1, statsMax := Max(p.statsMax, p.limit + 1))
    else p
  }

  /** What holds between any two critical sections of a limiter built with 1 <= minimum <= limit. */
  predicate Sound(p: Permits) {
    && 1 <= p.min <= p.statsMin <= p.limit <= p.max
    && 0 <= p.inflight <= p.max
    && p.statsMax == p.max
  }

  class AdaptiveLimiter {
    var limit: int
    var max: int
    var min: int
    var inflight: int
    var statsMin: int
    var statsMax: int

    function View(): Permits
      reads this
    {
      Permits(limit, max, min, inflight, statsMin, statsMax)
    }

    constructor (limit: int, minimum: int)
      ensures View() == Initial(limit, minimum)
      ensures 1 <= limit && minimum <= limit ==> Sound(View())
    {
      this.limit, max, min, inflight := limit, limit, Max(1, minimum), 0;
      statsMin, statsMax := limit, limit;
    }

    /** One pass of the guarded wait: a caller that is refused would sleep on the condition. */
    method TryAcquire() returns (granted: bool)
      requires Sound(View())
      modifies this
      ensures Sound(View())
      ensures granted <==> old(inflight) < old(limit)
      ensures granted ==> View() == old(View()).(inflight := old(inflight) + 1) && inflight <= limit
      ensures !granted ==> View() == old(View())
    {
      granted := inflight < limit;
      if granted {
        inflight := inflight + 1;
      }
    }

    method Release()
      requires Sound(View()) && inflight > 0
      modifies this
      ensures Sound(View()) && View() == old(View()).(inflight := old(inflight) - 1)
    {
      inflight := inflight - 1;
    }

    method Penalize()
      requires Sound(View())
      modifies this
      ensures Sound(View()) && View() == Penalized(old(View()))
    {
      limit := Max(min, limit / 2);
      statsMin := Min(statsMin, limit);
    }

    method Reward()
      requires Sound(View())
      modifies this
      ensures Sound(View()) && View() == Rewarded(old(View()))
    {
      if limit < max {
        limit := limit + 1;
        statsMax := Max(statsMax, limit);
      }
    }
  }

  datatype Adjustment = Penalty | Reward

  function Adjust(p: Permits, a: Adjustment): Permits {
    match a
    case Penalty => Penalized(p)
    case Reward => Rewarded(p)
  }

  function AdjustAll(p: Permits, adjustments: seq<Adjustment>): Permits {
    if adjustments == [] then p
    else Adjust(AdjustAll(p, adjustments[..|adjustments| - 1]), adjustments[|adjustments| - 1])
  }

  lemma {:induction false} AdjustKeepsSound(p: Permits, adjustments: seq<Adjustment>)
    requires Sound(p)
    ensures Sound(AdjustAll(p, adjustments))
    ensures AdjustAll(p, adjustments).min == p.min && AdjustAll(p, adjustments).max == p.max
  {
    if adjustments == [] {
    } else {
      AdjustKeepsSound(p, adjustments[..|adjustments| - 1]);
    }
  }

  /** The ceiling holds under every history of penalties and rewards exactly when the floor was
      configured below it: one penalty already breaks it otherwise. */
  lemma CeilingHoldsIff(limit: int, minimum: int)
    ensures (forall adjustments: seq<Adjustment> ::
               AdjustAll(Initial(limit, minimum), adjustments).limit <= limit)
            <==> Max(1, minimum) <= limit
  {
    var start := Initial(limit, minimum);
    if Max(1, minimum) <= limit {
      forall adjustments: seq<Adjustment> ensures AdjustAll(start, adjustments).limit <= limit {
        AdjustKeepsSound(start, adjustments);
      }
    } else {
      assert AdjustAll(start, [Penalty][..0]) == start;
      assert AdjustAll(start, [Penalty]).limit == Max(start.min, limit / 2);
    }
  }

  lemma {:induction false} PositiveMultiple(d: int, e: int)
    requires d > 0 && e > 0
    ensures d * e >= d
  {
    if e == 1 {
    } else {
      PositiveMultiple(d, e - 1);
      assert d * e == d * (e - 1) + d;
    }
  }

  lemma NonzeroMultiple(d: int, e: int)
    requires d > 0 && e != 0
    ensures d * e >= d || d * e <= -d
  {
    if e > 1 {
      PositiveMultiple(d, e);
    } else if e < -1 {
      PositiveMultiple(d, -e);
      assert d * -e == -(d * e);
    }
  }

  lemma QuotientIs(n: int, d: int, q: int, r: int)
    requires 0 <= r < d && n == d * q + r
    ensures n / d == q
  {
    var e, m := n / d - q, n % d;
    assert d * (n / d) + m == n;
    assert d * e == d * (n / d) - d * q;
    assert d * e == r - m;
    if e != 0 {
      NonzeroMultiple(d, e);
      assert false;
    }
  }

  lemma HalvesCompose(n: nat, k: nat)
    ensures n / Pow2(k) / 2 == n / Pow2(k + 1)
  {
    var d := Pow2(k);
    var q, r := n / (2 * d), n % (2 * d);
    assert n == (2 * d) * q + r == d * (2 * q) + r;
    if r < d {
      QuotientIs(n, d, 2 * q, r);
    } else {
      assert n == d * (2 * q + 1) + (r - d);
      QuotientIs(n, d, 2 * q + 1, r - d);
    }
  }

  /** `k` rate limits in a row shrink the limit to the floor or to a 2^k-th of it. */
  lemma {:induction false} PenaltiesHalve(p: Permits, k: nat)
    requires Sound(p)
    ensures AdjustAll(p, seq(k, _ => Penalty)).limit == Max(p.min, p.limit / Pow2(k))
  {
    var ks := seq(k, _ => Penalty);
    if k == 0 {
    } else {
      assert ks[..|ks| - 1] == seq(k - 1, _ => Penalty);
      PenaltiesHalve(p, k - 1);
      AdjustKeepsSound(p, seq(k - 1, _ => Penalty));
      HalvesCompose(p.limit, k - 1);
    }
  }

  /** `k` successes in a row raise the limit by one each, up to the ceiling. */
  lemma {:induction false} RewardsClimb(p: Permits, k: nat)
    requires Sound(p)
    ensures AdjustAll(p, seq(k, _ => Reward)).limit == Min(p.max, p.limit + k)
  {
    var ks := seq(k, _ => Reward);
    if k == 0 {
    } else {
      assert ks[..|ks| - 1] == seq(k - 1, _ => Reward);
      RewardsClimb(p, k - 1);
      AdjustKeepsSound(p, seq(k - 1, _ => Reward));
    }
  }

  /** The reported extremes: the smallest limit ever in force, and always the configured maximum,
      so the second figure carries no information about the run. */
  lemma {:induction false} StatsAreHistoryExtremes(p: Permits, adjustments: seq<Adjustment>)
    requires Sound(p) && p.statsMin == p.limit
    ensures var end := AdjustAll(p, adjustments);
            && (forall k :: 0 <= k <= |adjustments| ==> end.statsMin <= AdjustAll(p, adjustments[..k]).limit)
            && (exists k :: 0 <= k <= |adjustments| && end.statsMin == AdjustAll(p, adjustments[..k]).limit)
            && end.statsMax == p.max
  {
    AdjustKeepsSound(p, adjustments);
    var n := |adjustments|;
    assert adjustments[..n] == adjustments;
    if n == 0 {
      assert adjustments[..0] == [];
    } else {
      var init := adjustments[..n - 1];
      StatsAreHistoryExtremes(p, init);
      assert forall k :: 0 <= k <= n - 1 ==> init[..k] == adjustments[..k];
      var k :| 0 <= k <= n - 1 && AdjustAll(p, init).statsMin == AdjustAll(p, init[..k]).limit;
      var end := AdjustAll(p, adjustments);
      AdjustKeepsSound(p, init);
      if end.statsMin == end.limit {
        assert end.statsMin == AdjustAll(p, adjustments[..n]).limit;
      } else {
        assert end.statsMin == AdjustAll(p, adjustments[..k]).limit;
      }
      forall j | 0 <= j <= n ensures end.statsMin <= AdjustAll(p, adjustments[..j]).limit {
        if j < n {
          assert AdjustAll(p, init).statsMin <= AdjustAll(p, init[..j]).limit;
        }
      }
    }
  }
}
