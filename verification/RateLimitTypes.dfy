/** Policies, decisions and calls of the rate limiter (packages/core/src/ratelimit). */
module RateLimitTypes {
  import opened Common

  datatype PolicyData = PolicyData(limit: int, windowMs: int, burst: Option<int>)

  /** The configuration schema admits positive integers only. */
  type Policy = p: PolicyData | p.limit >= 1 && p.windowMs >= 1 && (p.burst.Some? ==> p.burst.value >= 1)
    witness PolicyData(1, 1, None)

  type Cost = c: int | c >= 1 witness 1

  datatype Decision = Decision(allowed: bool, limit: int, remaining: int, retryAfterMs: int)

  /** One consume call on a key; also one entry of a log. */
  datatype Call = Call(now: int, cost: Cost)

  /** `burst ?? limit`. */
  function Capacity(p: Policy): int {
    if p.burst.Some? then p.burst.value else p.limit
  }

  /** Cost in units of 1/windowMs, the unit in which bucket levels are whole numbers. */
  function Scaled(cost: int, p: Policy): int { cost * p.windowMs }

  /** What refills or leaks in `elapsed` ms at limit / windowMs per ms, in those units. */
  function Flow(elapsed: int, p: Policy): int { elapsed * p.limit }

  /** `Math.floor` of a level kept in those units. */
  function Whole(level: int, p: Policy): int { level / p.windowMs }

  /** `Math.ceil` of the time to refill or leak that much. */
  function FlowTime(level: int, p: Policy): int { CeilDiv(level, p.limit) }

  /** A window's count weighted by a span of ms, in the same units as Scaled. */
  function Weighted(count: int, span: int): int { count * span }

  lemma WeightedFacts(count: int, a: int, b: int)
    requires count >= 0
    ensures a >= 0 ==> Weighted(count, a) >= 0
    ensures a <= b ==> Weighted(count, a) <= Weighted(count, b)
    ensures Weighted(count, a - b) == Weighted(count, a) - Weighted(count, b)
  {
    assert count * (a - b) == count * a - count * b;
    if a <= b { assert count * (b - a) >= 0; }
  }

  lemma WeightedFullWindow(count: int, p: Policy)
    ensures Weighted(count, p.windowMs) == Scaled(count, p)
  {
  }

  /** Both units are linear and monotone; proofs elsewhere hide the products and use only this. */
  lemma Linear(a: int, b: int, p: Policy)
    ensures Scaled(a + b, p) == Scaled(a, p) + Scaled(b, p) && Flow(a + b, p) == Flow(a, p) + Flow(b, p)
    ensures a <= b ==> Scaled(a, p) <= Scaled(b, p) && Flow(a, p) <= Flow(b, p)
    ensures a < b ==> Scaled(a, p) < Scaled(b, p) && Flow(a, p) < Flow(b, p)
    ensures Scaled(0, p) == 0 && Flow(0, p) == 0
    ensures Flow(p.windowMs, p) == Scaled(p.limit, p)
  {
    assert (a + b) * p.windowMs == a * p.windowMs + b * p.windowMs;
    assert (a + b) * p.limit == a * p.limit + b * p.limit;
    if a < b {
      MulMonotone(a + 1, b, p.windowMs);
      MulMonotone(a + 1, b, p.limit);
      assert (a + 1) * p.windowMs == a * p.windowMs + p.windowMs;
      assert (a + 1) * p.limit == a * p.limit + p.limit;
    }
  }

  lemma WholeIsNonNegative(level: int, p: Policy)
    requires level >= 0
    ensures Whole(level, p) >= 0
  {
  }

  /** FlowTime is the exact threshold: d ms of flow cover `level` just when d >= FlowTime(level). */
  lemma FlowTimeIsThreshold(level: int, d: int, p: Policy)
    ensures Flow(d, p) >= level <==> d >= FlowTime(level, p)
  {
    CeilDivIsThreshold(level, p.limit, d);
  }
}
