/** Bounds of the two-window sliding counter. */
module SlidingCounter {
  import opened Common
  import opened RateLimitTypes
  import opened Runs
  import SC = SlidingWindowCounter

  function CounterPart(s: Option<State>): Option<SC.State>
    requires s.Some? ==> s.value.CounterState?
  {
    if s.Some? then Some(s.value.counter) else None
  }

  /** The run machinery, for this one algorithm. */
  lemma CounterUnfolds(p: Policy, calls: seq<Call>)
    requires |calls| > 0
    ensures var r := SC.Apply(CounterPart(After(Counter, p, Front(calls))), p, Last(calls).now, Last(calls).cost);
            After(Counter, p, calls) == Some(CounterState(r.0)) && Decide(Counter, p, Front(calls), Last(calls)) == r.1
  {
    hide WindowStart, SC.Estimate, SC.CarryForward, Scaled, Whole, FlowTime;
  }

  /** One call, on the counters alone: what carries over, and that an admission respects the estimate. */
  lemma CounterStep(s: Option<SC.State>, p: Policy, now: int, cost: Cost)
    requires s.Some? ==> 0 <= s.value.currentCount <= p.limit && 0 <= s.value.previousCount <= p.limit
    ensures var ws := WindowStart(now, p.windowMs);
            var (s', d), (prev, cur) := SC.Apply(s, p, now, cost), SC.CarryForward(s, ws, p.windowMs);
            && s' == SC.State(ws, prev, if d.allowed then cur + cost else cur)
            && 0 <= s'.currentCount <= p.limit && 0 <= s'.previousCount <= p.limit
            && (d.allowed
                ==> Weighted(s'.previousCount, p.windowMs - (now - ws)) + Scaled(s'.currentCount, p)
                    <= Scaled(p.limit, p))
  {
    hide WindowStart, Scaled, Weighted, Whole, FlowTime;
    var ws := WindowStart(now, p.windowMs);
    WindowStartBounds(now, p.windowMs);
    var (prev, cur) := SC.CarryForward(s, ws, p.windowMs);
    Linear(cur, cost, p);
    WeightedFacts(prev, p.windowMs - (now - ws), 0);
    if cur + cost > p.limit { Linear(p.limit, cur + cost, p); }
  }

  /**
   currentCount and previousCount are exactly what the current and the
   previous aligned window admitted, and neither exceeds limit.
   */
  ghost predicate CountsExact(p: Policy, calls: seq<Call>)
    requires |calls| > 0
  {
    var s, h, w := After(Counter, p, calls).value.counter, Admitted(Counter, p, calls), p.windowMs;
    && s.windowStart == WindowStart(Last(calls).now, w)
    && s.currentCount == CostIn(h, s.windowStart - 1, s.windowStart + w - 1)
    && s.previousCount == CostIn(h, s.windowStart - w - 1, s.windowStart - 1)
    && 0 <= s.currentCount <= p.limit && 0 <= s.previousCount <= p.limit
  }

  lemma {:induction false} CountsAreExact(p: Policy, calls: seq<Call>)
    requires InOrder(calls) && |calls| > 0
    ensures CountsExact(p, calls)
  {
    hide WindowStart, After, Decide, Admitted, CostIn, SC.Apply;
    InOrderFront(calls);
    var c, front, w := Last(calls), Front(calls), p.windowMs;
    var ws := WindowStart(c.now, w);
    WindowStartBounds(c.now, w);
    CounterUnfolds(p, calls);
    AdmittedStep(Counter, p, calls, ws - 1, ws + w - 1);
    AdmittedStep(Counter, p, calls, ws - w - 1, ws - 1);
    if |front| > 0 {
      CountsAreExact(p, front);
      var m := Last(front).now;
      WindowStartBounds(m, w);
      WindowStartsApart(m, c.now, w);
      HistoryUpTo(Counter, p, front, ws - 1, ws + w - 1);
      if ws - 1 >= m { HistoryUpTo(Counter, p, front, ws - w - 1, ws - 1); }
    } else {
      EmptyRun(Counter, p, ws - 1, ws + w - 1);
      EmptyRun(Counter, p, ws - w - 1, ws - 1);
    }
    CounterStep(CounterPart(After(Counter, p, front)), p, c.now, c.cost);
  }

  /**
   The two-window estimate over the admission history alone, in units of
   1/windowMs: what the previous aligned window admitted, weighted by the part
   of it that the trailing window still covers, plus what this one admitted.
   */
  function HistoryEstimate(p: Policy, h: seq<Call>, now: int): int {
    var ws := now / p.windowMs * p.windowMs;
    CostIn(h, ws - p.windowMs - 1, ws - 1) * (p.windowMs - (now - ws)) + CostIn(h, ws - 1, now) * p.windowMs
  }

  /**
   The sliding counter over the history alone: a call is admitted if and only if
   it fits on top of that estimate, and a refusal announces the least number of
   whole milliseconds in which limit / windowMs per ms makes up what lacks.
   */
  lemma CounterIsExact(p: Policy, calls: seq<Call>, c: Call)
    requires InOrder(calls + [c])
    ensures var d := Decide(Counter, p, calls, c);
            var lack := HistoryEstimate(p, Admitted(Counter, p, calls), c.now)
                + c.cost * p.windowMs - p.limit * p.windowMs;
            && d.limit == p.limit && (d.allowed <==> lack <= 0)
            && (if d.allowed then d.retryAfterMs == 0
                else (d.retryAfterMs - 1) * p.limit < lack <= d.retryAfterMs * p.limit)
  {
    EstimateIsHistory(p, calls, c);
    DecidesByEstimate(p, calls, c);
    hide After, Decide, Admitted, SC.Estimate, HistoryEstimate, FlowTime;
    var lack := SC.Estimate(CounterPart(After(Counter, p, calls)), p, c.now) + Scaled(c.cost, p) - Scaled(p.limit, p);
    FlowTimeIsThreshold(lack, FlowTime(lack, p), p);
    FlowTimeIsThreshold(lack, FlowTime(lack, p) - 1, p);
  }

  lemma EstimateIsHistory(p: Policy, calls: seq<Call>, c: Call)
    requires InOrder(calls + [c])
    ensures SC.Estimate(CounterPart(After(Counter, p, calls)), p, c.now)
        == HistoryEstimate(p, Admitted(Counter, p, calls), c.now)
  {
    var h, ws, w := Admitted(Counter, p, calls), WindowStart(c.now, p.windowMs), p.windowMs;
    HistoryEstimateUnfolds(p, h, c.now);
    CarriedIsHistory(p, calls, c);
    hide After, Admitted, CostIn, SC.CarryForward, WindowStart, SC.Estimate, HistoryEstimate;
    EstimateUnfolds(CounterPart(After(Counter, p, calls)), p, c.now);
  }

  lemma HistoryEstimateUnfolds(p: Policy, h: seq<Call>, now: int)
    ensures var ws, w := WindowStart(now, p.windowMs), p.windowMs;
            HistoryEstimate(p, h, now)
            == Weighted(CostIn(h, ws - w - 1, ws - 1), w - (now - ws)) + Scaled(CostIn(h, ws - 1, now), p)
  {
    assert WindowStart(now, p.windowMs) == now / p.windowMs * p.windowMs;
  }

  lemma EstimateUnfolds(s: Option<SC.State>, p: Policy, now: int)
    ensures var ws, w := WindowStart(now, p.windowMs), p.windowMs;
            var (prev, cur) := SC.CarryForward(s, ws, w);
            SC.Estimate(s, p, now) == Weighted(prev, w - (now - ws)) + Scaled(cur, p)
  {
    WindowStartBounds(now, p.windowMs);
    hide WindowStart, Weighted, Scaled, SC.CarryForward;
  }

  lemma DecidesByEstimate(p: Policy, calls: seq<Call>, c: Call)
    ensures var s, d := CounterPart(After(Counter, p, calls)), Decide(Counter, p, calls, c);
            var lack := SC.Estimate(s, p, c.now) + Scaled(c.cost, p) - Scaled(p.limit, p);
            && d.limit == p.limit && d.allowed == (lack <= 0)
            && d.retryAfterMs == if d.allowed then 0 else FlowTime(lack, p)
  {
    hide WindowStart, SC.Estimate, SC.CarryForward, Scaled, Whole, FlowTime;
  }

  /** What carries over into a call is what the history says about the two windows. */
  lemma CarriedIsHistory(p: Policy, calls: seq<Call>, c: Call)
    requires InOrder(calls + [c])
    ensures var h, ws, w := Admitted(Counter, p, calls), WindowStart(c.now, p.windowMs), p.windowMs;
            SC.CarryForward(CounterPart(After(Counter, p, calls)), ws, w)
                == (CostIn(h, ws - w - 1, ws - 1), CostIn(h, ws - 1, c.now))
  {
    hide WindowStart, After, Decide, Admitted, CostIn, SC.Apply, SC.CarryForward;
    var ws, w, all := WindowStart(c.now, p.windowMs), p.windowMs, calls + [c];
    assert Front(all) == calls && Last(all) == c;
    WindowStartBounds(c.now, w);
    InOrderFront(all);
    CountsAreExact(p, all);
    CounterUnfolds(p, all);
    AdmittedStep(Counter, p, all, ws - 1, ws + w - 1);
    AdmittedStep(Counter, p, all, ws - w - 1, ws - 1);
    if |calls| > 0 {
      CountsAreExact(p, calls);
      HistoryUpTo(Counter, p, calls, ws - 1, ws + w - 1);
      HistoryUpTo(Counter, p, calls, ws - 1, c.now);
    } else {
      EmptyRun(Counter, p, ws - 1, ws + w - 1);
      EmptyRun(Counter, p, ws - 1, c.now);
    }
    CounterStep(CounterPart(After(Counter, p, calls)), p, c.now, c.cost);
  }

  /** No aligned window ever admits more than limit. */
  lemma {:induction false} AlignedWindowBound(p: Policy, calls: seq<Call>, t: int)
    requires InOrder(calls)
    ensures var ws := WindowStart(t, p.windowMs);
            CostIn(Admitted(Counter, p, calls), ws - 1, ws + p.windowMs - 1) <= p.limit
  {
    hide WindowStart, After, Decide, Admitted, CostIn;
    var w := p.windowMs;
    var ws := WindowStart(t, w);
    if |calls| == 0 {
      EmptyRun(Counter, p, ws - 1, ws + w - 1);
    } else {
      InOrderFront(calls);
      var n := Last(calls).now;
      AlignedWindowBound(p, Front(calls), t);
      AdmittedStep(Counter, p, calls, ws - 1, ws + w - 1);
      CountsAreExact(p, calls);
      WindowStartBounds(t, w);
      if ws <= n < ws + w { SameWindow(n, t, w); }
    }
  }

  lemma SameWindow(n: int, t: int, w: int)
    requires w >= 1 && WindowStart(t, w) <= n < WindowStart(t, w) + w
    ensures WindowStart(n, w) == WindowStart(t, w)
  {
    hide WindowStart;
    WindowStartBounds(n, w);
    WindowStartBounds(t, w);
    if n <= t { WindowStartsApart(n, t, w); } else { WindowStartsApart(t, n, w); }
  }

  lemma PreviousWindow(t: int, w: int)
    requires w >= 1
    ensures WindowStart(t - w, w) == WindowStart(t, w) - w
  {
    hide WindowStart;
    WindowStartBounds(t, w);
    WindowStartBounds(t - w, w);
    WindowStartsApart(t - w, t, w);
  }

  /**
   In any trailing window ending at t, offset e into an aligned window, at most
   limit + prev * e / windowMs is admitted, where prev is exactly what the
   previous aligned window admitted.
   */
  lemma {:induction false} TrailingWindowSum(p: Policy, calls: seq<Call>, t: int)
    requires InOrder(calls)
    ensures var w, h, ws := p.windowMs, Admitted(Counter, p, calls), WindowStart(t, p.windowMs);
            var prev := CostIn(h, ws - w - 1, ws - 1);
            && Scaled(CostIn(h, t - w, t), p) <= Scaled(p.limit, p) + Weighted(prev, t - ws)
            && prev <= p.limit
  {
    hide WindowStart, After, Decide, Admitted, CostIn, Scaled, Weighted, SC.Apply;
    var w := p.windowMs;
    var ws := WindowStart(t, w);
    WindowStartBounds(t, w);
    PreviousWindow(t, w);
    AlignedWindowBound(p, calls, t - w);
    if |calls| == 0 {
      EmptyRun(Counter, p, t - w, t);
      EmptyRun(Counter, p, ws - w - 1, ws - 1);
      Linear(0, p.limit, p);
      WeightedFacts(0, t - ws, 0);
    } else {
      var c, front := Last(calls), Front(calls);
      InOrderFront(calls);
      TrailingWindowSum(p, front, t);
      AdmittedStep(Counter, p, calls, t - w, t);
      AdmittedStep(Counter, p, calls, ws - w - 1, ws - 1);
      if Decide(Counter, p, front, c).allowed && c.now <= t {
        TrailingWindowAfterAdmission(p, calls, t);
      }
    }
  }

  lemma TrailingWindowAfterAdmission(p: Policy, calls: seq<Call>, t: int)
    requires InOrder(calls) && |calls| > 0 && Last(calls).now <= t
    requires Decide(Counter, p, Front(calls), Last(calls)).allowed
    ensures var w, h, ws := p.windowMs, Admitted(Counter, p, calls), WindowStart(t, p.windowMs);
            Scaled(CostIn(h, t - w, t), p) <= Scaled(p.limit, p) + Weighted(CostIn(h, ws - w - 1, ws - 1), t - ws)
  {
    hide WindowStart, After, Decide, Admitted, CostIn, Scaled, Weighted, SC.Apply;
    var c, front, w, h := Last(calls), Front(calls), p.windowMs, Admitted(Counter, p, calls);
    var ws := WindowStart(t, w);
    var prev, cur := CostIn(h, ws - w - 1, ws - 1), CostIn(h, ws - 1, t);
    WindowStartBounds(t, w);
    WindowStartBounds(c.now, w);
    WindowStartsApart(c.now, t, w);
    CostInSplits(h, t - w, ws - 1, t);
    CostInSplits(h, ws - w - 1, t - w, ws - 1);
    HistoryUpTo(Counter, p, calls, ws - 1, t);
    if WindowStart(c.now, w) == ws {
      HistoryUpTo(Counter, p, calls, ws - 1, ws + w - 1);
      CountsAreExact(p, calls);
      CounterUnfolds(p, calls);
      InOrderFront(calls);
      if |front| > 0 { CountsAreExact(p, front); }
      CounterStep(CounterPart(After(Counter, p, front)), p, c.now, c.cost);
      WeightedTotal(p, prev, cur, CostIn(h, t - w, t), c.now - ws, t - ws);
    } else {
      PreviousWindow(t, w);
      AlignedWindowBound(p, calls, t - w);
      Linear(CostIn(h, t - w, t), p.limit, p);
      WeightedFacts(prev, t - ws, 0);
    }
  }

  lemma WeightedTotal(p: Policy, prev: int, cur: int, total: int, e0: int, e: int)
    requires total <= prev + cur && 0 <= prev && e0 <= e
    requires Weighted(prev, p.windowMs - e0) + Scaled(cur, p) <= Scaled(p.limit, p)
    ensures Scaled(total, p) <= Scaled(p.limit, p) + Weighted(prev, e)
  {
    hide Scaled, Weighted;
    Linear(total, prev + cur, p);
    Linear(prev, cur, p);
    WeightedFacts(prev, p.windowMs, e0);
    WeightedFacts(prev, e0, e);
    WeightedFullWindow(prev, p);
  }

  /** Hence any trailing window admits strictly less than twice the limit. */
  lemma TrailingWindowBelowTwiceLimit(p: Policy, calls: seq<Call>, t: int)
    requires InOrder(calls)
    ensures CostIn(Admitted(Counter, p, calls), t - p.windowMs, t) < 2 * p.limit
  {
    hide WindowStart, Admitted, CostIn, Scaled, Weighted;
    var w, h, ws := p.windowMs, Admitted(Counter, p, calls), WindowStart(t, p.windowMs);
    var prev, total, e := CostIn(h, ws - w - 1, ws - 1), CostIn(h, t - w, t), t - ws;
    TrailingWindowSum(p, calls, t);
    WindowStartBounds(t, w);
    WindowStartBounds(t, w);
    BelowFullWindow(p, prev, e);
    Linear(p.limit, p.limit, p);
    if total >= 2 * p.limit { Linear(p.limit + p.limit, total, p); }
  }

  lemma BelowFullWindow(p: Policy, prev: int, e: int)
    requires prev <= p.limit && 0 <= e < p.windowMs
    ensures Weighted(prev, e) < Scaled(p.limit, p)
  {
    MulMonotone(prev, p.limit, e);
    MulMonotone(e, p.windowMs - 1, p.limit);
    assert p.limit * (p.windowMs - 1) == p.limit * p.windowMs - p.limit;
  }
}
