/** Bounds of the fixed window counter. */
module FixedBounds {
  import opened Common
  import opened RateLimitTypes
  import opened Runs
  import FW = FixedWindow
  import SlidingCounter

  function FixedPart(s: Option<State>): Option<FW.State>
    requires s.Some? ==> s.value.FixedState?
  {
    if s.Some? then Some(s.value.fixed) else None
  }

  lemma CountUnfolds(p: Policy, calls: seq<Call>)
    requires |calls| > 0
    ensures var r := FW.Apply(FixedPart(After(Fixed, p, Front(calls))), p, Last(calls).now, Last(calls).cost);
            After(Fixed, p, calls) == Some(FixedState(r.0)) && Decide(Fixed, p, Front(calls), Last(calls)) == r.1
  {
    hide WindowStart;
  }

  /** The count is exactly what the aligned window of the last call has admitted, and never exceeds limit. */
  lemma {:induction false} CountIsExact(p: Policy, calls: seq<Call>)
    requires InOrder(calls) && |calls| > 0
    ensures var s, ws := After(Fixed, p, calls).value.fixed, WindowStart(Last(calls).now, p.windowMs);
            && s.windowStart == ws && s.count == CostIn(Admitted(Fixed, p, calls), ws - 1, ws + p.windowMs - 1)
            && 0 <= s.count <= p.limit
  {
    hide WindowStart, After, Decide, Admitted, CostIn;
    InOrderFront(calls);
    var c, front, w := Last(calls), Front(calls), p.windowMs;
    var ws := WindowStart(c.now, w);
    WindowStartBounds(c.now, w);
    CountUnfolds(p, calls);
    AdmittedStep(Fixed, p, calls, ws - 1, ws + w - 1);
    if |front| > 0 {
      CountIsExact(p, front);
      var m := Last(front).now;
      WindowStartBounds(m, w);
      WindowStartsApart(m, c.now, w);
      HistoryUpTo(Fixed, p, front, ws - 1, ws + w - 1);
    } else {
      EmptyRun(Fixed, p, ws - 1, ws + w - 1);
    }
  }

  /** Aligned windows start at multiples of their length. */
  lemma WindowStartIsAligned(t: int, w: int)
    requires w >= 1
    ensures WindowStart(t, w) == t / w * w
  {}

  /** The count a call starts from is what the history says about its window. */
  lemma CarriedIsHistory(p: Policy, calls: seq<Call>, c: Call)
    requires InOrder(calls + [c])
    ensures var s, ws := FixedPart(After(Fixed, p, calls)), WindowStart(c.now, p.windowMs);
            (if s.Some? && s.value.windowStart == ws then s.value.count else 0)
            == CostIn(Admitted(Fixed, p, calls), ws - 1, c.now)
  {
    hide WindowStart, After, Decide, Admitted, CostIn;
    var ws, w, all := WindowStart(c.now, p.windowMs), p.windowMs, calls + [c];
    assert Front(all) == calls && Last(all) == c;
    InOrderFront(all);
    WindowStartBounds(c.now, w);
    if |calls| > 0 {
      var last := Last(calls).now;
      CountIsExact(p, calls);
      WindowStartBounds(last, w);
      WindowStartsApart(last, c.now, w);
      HistoryUpTo(Fixed, p, calls, ws - 1, c.now);
      if last < ws + w { HistoryUpTo(Fixed, p, calls, ws - 1, ws + w - 1); }
    } else {
      EmptyRun(Fixed, p, ws - 1, c.now);
    }
  }

  lemma DecidesByCount(p: Policy, calls: seq<Call>, c: Call)
    ensures Decide(Fixed, p, calls, c) == FW.Apply(FixedPart(After(Fixed, p, calls)), p, c.now, c.cost).1
  {
    hide WindowStart;
  }

  /** The fixed window over the admission history alone: all four fields of every decision. */
  lemma FixedIsExact(p: Policy, calls: seq<Call>, c: Call)
    requires InOrder(calls + [c])
    ensures var ws := c.now / p.windowMs * p.windowMs;
            var used := CostIn(Admitted(Fixed, p, calls), ws - 1, c.now);
            Decide(Fixed, p, calls, c)
            == if used + c.cost <= p.limit then Decision(true, p.limit, p.limit - used - c.cost, 0)
               else Decision(false, p.limit, Max(0, p.limit - used), ws + p.windowMs - c.now)
  {
    WindowStartIsAligned(c.now, p.windowMs);
    hide WindowStart, After, Decide, Admitted, CostIn;
    CarriedIsHistory(p, calls, c);
    DecidesByCount(p, calls, c);
  }

  /** No aligned window ever admits more than limit. */
  lemma {:induction false} FixedAlignedBound(p: Policy, calls: seq<Call>, t: int)
    requires InOrder(calls)
    ensures var ws := WindowStart(t, p.windowMs);
            CostIn(Admitted(Fixed, p, calls), ws - 1, ws + p.windowMs - 1) <= p.limit
  {
    hide WindowStart, After, Decide, Admitted, CostIn;
    var w := p.windowMs;
    var ws := WindowStart(t, w);
    if |calls| == 0 {
      EmptyRun(Fixed, p, ws - 1, ws + w - 1);
    } else {
      InOrderFront(calls);
      var n := Last(calls).now;
      FixedAlignedBound(p, Front(calls), t);
      AdmittedStep(Fixed, p, calls, ws - 1, ws + w - 1);
      CountIsExact(p, calls);
      WindowStartBounds(t, w);
      if ws <= n < ws + w { SlidingCounter.SameWindow(n, t, w); }
    }
  }

  /** A trailing window touches two aligned ones, so it admits at most twice the limit. */
  lemma FixedTrailingBound(p: Policy, calls: seq<Call>, t: int)
    requires InOrder(calls)
    ensures CostIn(Admitted(Fixed, p, calls), t - p.windowMs, t) <= 2 * p.limit
  {
    hide WindowStart, Admitted, CostIn;
    var w, h, ws := p.windowMs, Admitted(Fixed, p, calls), WindowStart(t, p.windowMs);
    WindowStartBounds(t, w);
    SlidingCounter.PreviousWindow(t, w);
    FixedAlignedBound(p, calls, t);
    FixedAlignedBound(p, calls, t - w);
    CostInSplits(h, ws - w - 1, t - w, t);
    CostInSplits(h, ws - w - 1, ws - 1, t);
    CostInSplits(h, ws - 1, t, ws + w - 1);
  }

  /** The bound is sharp for every limit, as soon as a window is longer than a millisecond. */
  lemma FixedTrailingIsSharp(p: Policy)
    requires p.windowMs >= 2
    ensures var w, calls := p.windowMs, [Call(p.windowMs - 1, p.limit), Call(p.windowMs, p.limit)];
            InOrder(calls) && CostIn(Admitted(Fixed, p, calls), 0, w) == 2 * p.limit
  {
    var w := p.windowMs;
    var a, b := Call(w - 1, p.limit), Call(w, p.limit);
    assert WindowStart(w - 1, w) == 0 && WindowStart(w, w) == w;
    hide WindowStart;
    EmptyRun(Fixed, p, 0, w);
    assert Front([a, b]) == [a] && Front([a]) == [];
    CountUnfolds(p, [a]);
    CountUnfolds(p, [a, b]);
    AdmittedStep(Fixed, p, [a], 0, w);
    AdmittedStep(Fixed, p, [a, b], 0, w);
  }
}
