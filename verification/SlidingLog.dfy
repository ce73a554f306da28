/** The pruned log against a specification that never forgets. */
module SlidingLog {
  import opened Common
  import opened RateLimitTypes
  import opened Runs
  import SL = SlidingWindowLog

  /**
   The specification: sum the full admission history over the trailing window
   (now - windowMs, now]; a refused caller waits for the oldest entry in it.
   */
  function SpecDecision(h: seq<Call>, p: Policy, c: Call): Decision {
    var used := CostIn(h, c.now - p.windowMs, c.now);
    var allowed := used + c.cost <= p.limit;
    Decision(allowed, p.limit, Max(0, p.limit - (if allowed then used + c.cost else used)),
             if allowed then 0 else OldestAfter(h, c.now - p.windowMs, c.now) + p.windowMs - c.now)
  }

  /** Time of the first entry later than lo, or `otherwise`. */
  function OldestAfter(h: seq<Call>, lo: int, otherwise: int): int {
    if |h| == 0 then otherwise
    else if h[0].now > lo then h[0].now
    else OldestAfter(h[1..], lo, otherwise)
  }

  lemma {:induction false} AliveTwice(h: seq<Call>, lo: int, lo': int)
    requires lo <= lo'
    ensures SL.Alive(SL.Alive(h, lo), lo') == SL.Alive(h, lo')
  {
    if |h| > 0 {
      AliveTwice(Front(h), lo, lo');
      var rest := SL.Alive(Front(h), lo);
      assert Front(rest + [Last(h)]) == rest;
    }
  }

  lemma {:induction false} AliveTotal(h: seq<Call>, lo: int, hi: int)
    requires forall c :: c in h ==> c.now <= hi
    ensures SL.TotalCost(SL.Alive(h, lo)) == CostIn(h, lo, hi)
  {
    if |h| > 0 {
      AliveTotal(Front(h), lo, hi);
      var rest := SL.Alive(Front(h), lo);
      assert Front(rest + [Last(h)]) == rest;
    }
  }

  lemma {:induction false} AliveIsSuffix(h: seq<Call>, lo: int)
    requires InOrder(h)
    ensures |SL.Alive(h, lo)| <= |h| && SL.Alive(h, lo) == h[|h| - |SL.Alive(h, lo)|..]
    ensures forall i :: 0 <= i < |h| - |SL.Alive(h, lo)| ==> h[i].now <= lo
    ensures forall c :: c in SL.Alive(h, lo) ==> c.now > lo
  {
    if |h| > 0 { AliveIsSuffix(Front(h), lo); }
  }

  lemma {:induction false} OldestIsFirst(h: seq<Call>, k: nat, lo: int, otherwise: int)
    requires k <= |h| && (forall i :: 0 <= i < k ==> h[i].now <= lo) && (forall i :: k <= i < |h| ==> h[i].now > lo)
    ensures OldestAfter(h, lo, otherwise) == if k < |h| then h[k].now else otherwise
  {
    if k > 0 { OldestIsFirst(h[1..], k - 1, lo, otherwise); }
  }

  /** Admissions come in clock order. */
  lemma {:induction false} AdmittedInOrder(a: Algorithm, p: Policy, calls: seq<Call>)
    requires InOrder(calls)
    ensures InOrder(Admitted(a, p, calls))
  {
    if |calls| > 0 {
      InOrderFront(calls);
      AdmittedInOrder(a, p, Front(calls));
      AdmittedAreCalls(a, p, Front(calls), Last(calls).now);
    }
  }

  function LogPart(s: Option<State>): Option<SL.State>
    requires s.Some? ==> s.value.LogState?
  {
    if s.Some? then Some(s.value.log) else None
  }

  function Kept(p: Policy, calls: seq<Call>): seq<Call> {
    var s := After(Log, p, calls);
    if s.Some? then s.value.log.entries else []
  }

  /** The run machinery, for this one algorithm. */
  lemma LogUnfolds(p: Policy, calls: seq<Call>, c: Call)
    ensures Decide(Log, p, calls, c) == SL.Apply(LogPart(After(Log, p, calls)), p, c.now, c.cost).1
    ensures Kept(p, calls + [c])
            == SL.Alive(Kept(p, calls), c.now - p.windowMs) + (if Decide(Log, p, calls, c).allowed then [c] else [])
    ensures calls == [] ==> Kept(p, calls) == []
  {
    hide After, SL.Alive, SL.TotalCost;
    Snoc(Log, p, calls, c);
    if calls == [] { EmptyRun(Log, p, 0, 0); }
  }

  lemma AliveExtends(h: seq<Call>, c: Call, lo: int)
    ensures SL.Alive(h + [c], lo) == SL.Alive(h, lo) + (if c.now > lo then [c] else [])
    ensures SL.Alive([], lo) == []
  {
    assert Front(h + [c]) == h;
  }

  /** What the log keeps is exactly the part of the full history that still matters. */
  lemma {:induction false} LogKeepsTheWindow(p: Policy, calls: seq<Call>)
    requires InOrder(calls) && |calls| > 0
    ensures Kept(p, calls) == SL.Alive(Admitted(Log, p, calls), Last(calls).now - p.windowMs)
  {
    hide Kept, Decide, Admitted, SL.Alive, InOrder;
    InOrderFront(calls);
    var c, front := Last(calls), Front(calls);
    assert calls == front + [c];
    LogUnfolds(p, front, c);
    Snoc(Log, p, front, c);
    var h, lo := Admitted(Log, p, front), c.now - p.windowMs;
    AliveExtends(h, c, lo);
    assert h + [] == h && SL.Alive(h, lo) + [] == SL.Alive(h, lo);
    if |front| > 0 {
      LogKeepsTheWindow(p, front);
      AliveTwice(h, Last(front).now - p.windowMs, lo);
    } else {
      EmptyRun(Log, p, 0, 0);
    }
  }

  /** At any later instant, pruning the stored log is pruning the whole history. */
  lemma PrunedHistory(p: Policy, calls: seq<Call>, c: Call)
    requires InOrder(calls + [c])
    ensures SL.Alive(Kept(p, calls), c.now - p.windowMs) == SL.Alive(Admitted(Log, p, calls), c.now - p.windowMs)
    ensures InOrder(calls) && InOrder(Admitted(Log, p, calls)) && forall x ::
        x in Admitted(Log, p, calls) ==> x.now <= c.now
  {
    hide Decide, SL.Alive, After, Admitted;
    assert Front(calls + [c]) == calls && Last(calls + [c]) == c;
    InOrderFront(calls + [c]);
    assert forall x :: x in calls ==> x in calls + [c];
    AdmittedAreCalls(Log, p, calls, c.now);
    AdmittedInOrder(Log, p, calls);
    if |calls| > 0 {
      LogKeepsTheWindow(p, calls);
      AliveTwice(Admitted(Log, p, calls), Last(calls).now - p.windowMs, c.now - p.windowMs);
    } else {
      EmptyRun(Log, p, 0, 0);
    }
  }

  /**
   The pruned log decides every call, in all four fields, as the specification
   over the complete admission history does.
   */
  lemma LogIsExact(p: Policy, calls: seq<Call>, c: Call)
    requires InOrder(calls + [c])
    ensures Decide(Log, p, calls, c) == SpecDecision(Admitted(Log, p, calls), p, c)
  {
    hide Decide, Admitted, CostIn, OldestAfter, SL.Alive, SL.TotalCost, After;
    var h := Admitted(Log, p, calls);
    var lo := c.now - p.windowMs;
    PrunedHistory(p, calls, c);
    LogUnfolds(p, calls, c);
    AliveTotal(h, lo, c.now);
    AliveIsSuffix(h, lo);
    OldestIsFirst(h, |h| - |SL.Alive(h, lo)|, lo, c.now);
  }

  /** No trailing window, ending at any instant, ever holds more than limit. */
  lemma {:induction false} LogWindowBound(p: Policy, calls: seq<Call>, t: int)
    requires InOrder(calls)
    ensures CostIn(Admitted(Log, p, calls), t - p.windowMs, t) <= p.limit
  {
    hide Decide, Admitted, CostIn, OldestAfter;
    if |calls| == 0 {
      EmptyRun(Log, p, t - p.windowMs, t);
    } else {
      var c, front := Last(calls), Front(calls);
      var h := Admitted(Log, p, front);
      InOrderFront(calls);
      LogWindowBound(p, front, t);
      AdmittedStep(Log, p, calls, t - p.windowMs, t);
      if Decide(Log, p, front, c).allowed && t - p.windowMs < c.now <= t {
        assert calls == front + [c];
        LogIsExact(p, front, c);
        AdmittedAreCalls(Log, p, front, c.now);
        CostInClips(h, t - p.windowMs, t, c.now);
        CostInSplits(h, c.now - p.windowMs, t - p.windowMs, c.now);
      }
    }
  }

  lemma {:induction false} TotalBoundsLength(entries: seq<Call>)
    ensures SL.TotalCost(entries) >= |entries|
  {
    if |entries| > 0 { TotalBoundsLength(Front(entries)); }
  }

  /** The stored log is sorted by time, within the window, and at most limit long. */
  lemma LogShape(p: Policy, calls: seq<Call>)
    requires InOrder(calls) && |calls| > 0
    ensures InOrder(Kept(p, calls)) && SL.TotalCost(Kept(p, calls)) <= p.limit && |Kept(p, calls)| <= p.limit
    ensures forall c :: c in Kept(p, calls) ==> Last(calls).now - p.windowMs < c.now <= Last(calls).now
  {
    hide Kept, Decide, Admitted, CostIn, SL.Alive, SL.TotalCost;
    var h, n := Admitted(Log, p, calls), Last(calls).now;
    LogKeepsTheWindow(p, calls);
    InOrderFront(calls);
    AdmittedInOrder(Log, p, calls);
    AdmittedAreCalls(Log, p, calls, n);
    AliveIsSuffix(h, n - p.windowMs);
    AliveTotal(h, n - p.windowMs, n);
    LogWindowBound(p, calls, n);
    TotalBoundsLength(SL.Alive(h, n - p.windowMs));
  }
}
