/** What `remaining` promises: exactly how much more fits at the same instant. */
module Remaining {
  import opened Common
  import opened RateLimitTypes
  import opened Runs
  import FW = FixedWindow
  import TB = TokenBucket
  import LB = LeakyBucket
  import SL = SlidingWindowLog
  import SC = SlidingWindowCounter
  import SlidingLog

  lemma WholeIsThreshold(level: int, cost: int, p: Policy)
    ensures Scaled(cost, p) <= level <==> cost <= Whole(level, p)
  {
    var q := Whole(level, p);
    assert level == q * p.windowMs + level % p.windowMs;
    if cost <= q {
      MulMonotone(cost, q, p.windowMs);
    } else {
      MulMonotone(q + 1, cost, p.windowMs);
      assert (q + 1) * p.windowMs == q * p.windowMs + p.windowMs;
    }
  }

  lemma TokenRemaining(s: Option<TB.State>, p: Policy, now: int, cost: Cost, more: Cost)
    ensures var (s', d) := TB.Apply(s, p, now, cost);
            TB.Apply(Some(s'), p, now, more).1.allowed <==> more <= d.remaining
  {
    hide Scaled, Flow, Whole, FlowTime;
    Linear(0, cost, p);
    var s' := TB.Apply(s, p, now, cost).0;
    WholeIsThreshold(s'.tokens, more, p);
  }

  lemma LeakyRemaining(s: Option<LB.State>, p: Policy, now: int, cost: Cost, more: Cost)
    ensures var (s', d) := LB.Apply(s, p, now, cost);
            LB.Apply(Some(s'), p, now, more).1.allowed <==> more <= d.remaining
  {
    hide Scaled, Flow, Whole, FlowTime;
    Linear(0, cost, p);
    var s' := LB.Apply(s, p, now, cost).0;
    WholeIsThreshold(Scaled(Capacity(p), p) - s'.level, more, p);
  }

  lemma LogRemaining(s: Option<SL.State>, p: Policy, now: int, cost: Cost, more: Cost)
    ensures var (s', d) := SL.Apply(s, p, now, cost);
            SL.Apply(Some(s'), p, now, more).1.allowed <==> more <= d.remaining
  {
    hide SL.Alive;
    var entries, lo := if s.Some? then s.value.entries else [], now - p.windowMs;
    var alive := SL.Alive(entries, lo);
    SlidingLog.AliveTwice(entries, lo, lo);
    SlidingLog.AliveExtends(alive, Call(now, cost), lo);
    assert Front(alive + [Call(now, cost)]) == alive;
    assert SL.TotalCost(alive + [Call(now, cost)]) == SL.TotalCost(alive) + cost;
  }

  lemma CounterRemaining(s: Option<SC.State>, p: Policy, now: int, cost: Cost, more: Cost)
    ensures var (s', d) := SC.Apply(s, p, now, cost);
            SC.Apply(Some(s'), p, now, more).1.allowed <==> more <= d.remaining
  {
    hide Scaled, Whole, Weighted, FlowTime, WindowStart;
    var s' := SC.Apply(s, p, now, cost).0;
    var before := SC.CarryForward(s, WindowStart(now, p.windowMs), p.windowMs).1;
    Linear(before, cost, p);
    WholeIsThreshold(Scaled(p.limit, p) - SC.Estimate(Some(s'), p, now), more, p);
  }

  /**
   After any run and any decision, whichever the algorithm, a further call at
   the same instant is admitted if and only if it costs no more than
   `remaining`.
   */
  lemma RemainingIsExact(a: Algorithm, p: Policy, calls: seq<Call>, c: Call, more: Cost)
    ensures Decide(a, p, calls + [c], Call(c.now, more)).allowed <==> more <= Decide(a, p, calls, c).remaining
    ensures Decide(a, p, calls, c).limit == p.limit
  {
    hide After, TB.Apply, LB.Apply, SL.Apply, SC.Apply, WindowStart;
    Snoc(a, p, calls, c);
    var s := After(a, p, calls);
    LimitIsReported(a, s, p, c.now, c.cost);
    match a {
      case Fixed =>
      case Token => TokenRemaining(if s.Some? then Some(s.value.token) else None, p, c.now, c.cost, more);
      case Leaky => LeakyRemaining(if s.Some? then Some(s.value.leaky) else None, p, c.now, c.cost, more);
      case Log => LogRemaining(if s.Some? then Some(s.value.log) else None, p, c.now, c.cost, more);
      case Counter => CounterRemaining(if s.Some? then Some(s.value.counter) else None, p, c.now, c.cost, more);
    }
  }

  lemma LimitIsReported(a: Algorithm, s: Option<State>, p: Policy, now: int, cost: Cost)
    requires s.Some? ==> Fits(a, s.value)
    ensures Step(a, s, p, now, cost).1.limit == p.limit
  {
    hide Scaled, Flow, Whole, FlowTime, Weighted, WindowStart;
  }
}
