/** The token bucket's envelope and the leaky bucket as its mirror image. */
module Buckets {
  import opened Common
  import opened RateLimitTypes
  import opened Runs
  import TB = TokenBucket
  import LB = LeakyBucket

  /** One call, on the bucket alone. */
  lemma BucketStep(s: Option<TB.State>, p: Policy, now: int, cost: Cost)
    requires s.Some? ==> 0 <= s.value.tokens <= Scaled(Capacity(p), p) && s.value.lastRefillMs <= now
    ensures var (s', d) := TB.Apply(s, p, now, cost);
            && 0 <= s'.tokens <= Scaled(Capacity(p), p) && s'.lastRefillMs == now
            && s'.tokens + (if d.allowed then Scaled(cost, p) else 0) <= Scaled(Capacity(p), p)
            && (s.Some? ==> s'.tokens + (if d.allowed then Scaled(cost, p) else 0)
                            <= s.value.tokens + Flow(now - s.value.lastRefillMs, p))
  {
    hide Scaled, Flow, Whole, FlowTime;
    Linear(0, Capacity(p), p);
    Linear(0, cost, p);
    if s.Some? { Linear(0, now - s.value.lastRefillMs, p); } else { Linear(0, 0, p); }
  }

  function TokenPart(s: Option<State>): Option<TB.State>
    requires s.Some? ==> s.value.TokenState?
  {
    if s.Some? then Some(s.value.token) else None
  }

  /** The run machinery, for this one algorithm. */
  lemma TokenUnfolds(p: Policy, calls: seq<Call>)
    requires |calls| > 0
    ensures var r := TB.Apply(TokenPart(After(Token, p, Front(calls))), p, Last(calls).now, Last(calls).cost);
            After(Token, p, calls) == Some(TokenState(r.0)) && Decide(Token, p, Front(calls), Last(calls)) == r.1
  {
  }

  /** The bucket never leaves [0, capacity] and was last refilled by the last call. */
  lemma {:induction false} TokenRange(p: Policy, calls: seq<Call>)
    requires InOrder(calls) && |calls| > 0
    ensures var s := After(Token, p, calls).value.token;
            0 <= s.tokens <= Scaled(Capacity(p), p) && s.lastRefillMs == Last(calls).now
  {
    hide Scaled, After, Step, TB.Apply;
    InOrderFront(calls);
    TokenUnfolds(p, calls);
    if |calls| > 1 { TokenRange(p, Front(calls)); }
    BucketStep(TokenPart(After(Token, p, Front(calls))), p, Last(calls).now, Last(calls).cost);
  }

  /**
   What was admitted since t1, plus what is left in the bucket, never exceeds
   one full bucket plus the refill since t1.
   */
  lemma {:induction false} TokenConservation(p: Policy, calls: seq<Call>, t1: int)
    requires InOrder(calls) && |calls| > 0 && t1 <= Last(calls).now
    ensures Scaled(CostIn(Admitted(Token, p, calls), t1 - 1, Last(calls).now), p)
              + After(Token, p, calls).value.token.tokens
            <= Scaled(Capacity(p), p) + Flow(Last(calls).now - t1, p)
  {
    hide Scaled, Flow, After, Decide, Admitted, CostIn, TB.Apply;
    var c, front := Last(calls), Front(calls);
    var before := CostIn(Admitted(Token, p, front), t1 - 1, c.now);
    TokenUnfolds(p, calls);
    AdmittedStep(Token, p, calls, t1 - 1, c.now);
    Linear(before, c.cost, p);
    Linear(0, c.now - t1, p);
    if |front| > 0 {
      var last := Last(front).now;
      InOrderFront(calls);
      TokenRange(p, front);
      HistoryUpTo(Token, p, front, t1 - 1, c.now);
      if t1 <= last {
        TokenConservation(p, front, t1);
        Linear(last - t1, c.now - last, p);
      }
    } else {
      assert Admitted(Token, p, front) == [] && CostIn([], t1 - 1, c.now) == 0 by { EmptyRun(Token, p, t1 - 1, c.now); }
    }
    BucketStep(TokenPart(After(Token, p, front)), p, c.now, c.cost);
  }

  /** The units written out. */
  lemma Units(cost: int, elapsed: int, p: Policy)
    ensures Scaled(cost, p) == cost * p.windowMs && Flow(elapsed, p) == elapsed * p.limit
    ensures Scaled(Capacity(p), p) == (if p.burst.Some? then p.burst.value else p.limit) * p.windowMs
  {}

  /**
   On every run, the cost admitted in any interval [t1, t2] is at most
   capacity + (t2 - t1) * limit / windowMs.
   */
  lemma {:induction false} TokenEnvelope(p: Policy, calls: seq<Call>, t1: int, t2: int)
    requires InOrder(calls) && t1 <= t2
    ensures Scaled(CostIn(Admitted(Token, p, calls), t1 - 1, t2), p)
            <= Scaled(Capacity(p), p) + Flow(t2 - t1, p)
    ensures CostIn(Admitted(Token, p, calls), t1 - 1, t2) * p.windowMs
            <= (if p.burst.Some? then p.burst.value else p.limit) * p.windowMs + (t2 - t1) * p.limit
  {
    Units(CostIn(Admitted(Token, p, calls), t1 - 1, t2), t2 - t1, p);
    hide Scaled, Flow, After, Decide, Admitted, CostIn;
    Linear(0, t2 - t1, p);
    Linear(0, Capacity(p), p);
    if |calls| == 0 {
      EmptyRun(Token, p, t1 - 1, t2);
    } else {
      var n := Last(calls).now;
      InOrderFront(calls);
      if n > t2 {
        TokenEnvelope(p, Front(calls), t1, t2);
        AdmittedStep(Token, p, calls, t1 - 1, t2);
      } else {
        HistoryUpTo(Token, p, calls, t1 - 1, t2);
        if n >= t1 {
          TokenConservation(p, calls, t1);
          TokenRange(p, calls);
          Linear(n - t1, t2 - t1, p);
        }
      }
    }
  }

  // -------------------------------------------------------------- tightness

  /** Before a call, as after it: nothing exceeds one bucket plus the refill since t1. */
  lemma AvailableIsBounded(p: Policy, calls: seq<Call>, now: int, t1: int)
    requires InOrder(calls) && (|calls| > 0 ==> Last(calls).now <= now) && t1 <= now
    ensures Scaled(CostIn(Admitted(Token, p, calls), t1 - 1, now), p)
        + TB.Available(TokenPart(After(Token, p, calls)), p, now)
            <= Scaled(Capacity(p), p) + Flow(now - t1, p)
  {
    hide Scaled, Flow, After, Decide, Admitted, CostIn;
    Linear(0, now - t1, p);
    if |calls| == 0 {
      EmptyRun(Token, p, t1 - 1, now);
    } else {
      var last := Last(calls).now;
      TokenRange(p, calls);
      HistoryUpTo(Token, p, calls, t1 - 1, now);
      if t1 <= last {
        TokenConservation(p, calls, t1);
        Linear(last - t1, now - last, p);
      }
    }
  }

  /** And from some instant t1 on, exactly that much was admitted or is on hand. */
  lemma {:induction false} AvailableIsTight(p: Policy, calls: seq<Call>, now: int) returns (t1: int)
    requires InOrder(calls) && (|calls| > 0 ==> Last(calls).now <= now)
    ensures t1 <= now
    ensures Scaled(CostIn(Admitted(Token, p, calls), t1 - 1, now), p)
        + TB.Available(TokenPart(After(Token, p, calls)), p, now)
            == Scaled(Capacity(p), p) + Flow(now - t1, p)
    decreases |calls|, 1
  {
    hide Scaled, Flow, After, Decide, Admitted, CostIn;
    Linear(0, 0, p);
    t1 := now;
    if |calls| == 0 {
      EmptyRun(Token, p, t1 - 1, now);
    } else {
      var s, last := After(Token, p, calls).value.token, Last(calls).now;
      TokenRange(p, calls);
      if last < now && s.tokens + Flow(now - last, p) >= Scaled(Capacity(p), p) {
        HistoryUpTo(Token, p, calls, now - 1, now);
      } else {
        t1 := TokensAreTight(p, calls);
        HistoryUpTo(Token, p, calls, t1 - 1, now);
        Linear(last - t1, now - last, p);
      }
    }
  }

  /**
   TokenConservation is tight: after every run there is an instant t1 such that
   what was admitted since t1 plus what is left is exactly one full bucket plus
   the refill since t1.
   */
  lemma {:induction false} TokensAreTight(p: Policy, calls: seq<Call>) returns (t1: int)
    requires InOrder(calls) && |calls| > 0
    ensures t1 <= Last(calls).now
    ensures Scaled(CostIn(Admitted(Token, p, calls), t1 - 1, Last(calls).now), p)
              + After(Token, p, calls).value.token.tokens
            == Scaled(Capacity(p), p) + Flow(Last(calls).now - t1, p)
    decreases |calls|, 0
  {
    hide Scaled, Flow, After, Decide, Admitted, CostIn, TB.Available;
    var c, front := Last(calls), Front(calls);
    InOrderFront(calls);
    t1 := AvailableIsTight(p, front, c.now);
    TokenUnfolds(p, calls);
    AdmittedStep(Token, p, calls, t1 - 1, c.now);
    Linear(CostIn(Admitted(Token, p, front), t1 - 1, c.now), c.cost, p);
  }

  /**
   With this call too, [t1, now] holds at most one full bucket (burst, or limit
   when there is none) and the refill in between.
   */
  predicate FitsSince(p: Policy, h: seq<Call>, c: Call, t1: int) {
    (CostIn(h, t1 - 1, c.now) + c.cost) * p.windowMs
    <= (if p.burst.Some? then p.burst.value else p.limit) * p.windowMs + (c.now - t1) * p.limit
  }

  /**
   The token bucket over the admission history alone: a call is admitted if and
   only if it fits every interval up to now.
   */
  lemma TokenIsExact(p: Policy, calls: seq<Call>, c: Call)
    requires InOrder(calls + [c])
    ensures Decide(Token, p, calls, c).allowed
            <==> forall t1 :: t1 <= c.now ==> FitsSince(p, Admitted(Token, p, calls), c, t1)
  {
    assert Front(calls + [c]) == calls && Last(calls + [c]) == c;
    InOrderFront(calls + [c]);
    DecidesByAvailable(p, calls, c);
    hide Decide, After, Admitted, CostIn, TB.Available, FitsSince, Scaled, Flow;
    var h, available := Admitted(Token, p, calls), TB.Available(TokenPart(After(Token, p, calls)), p, c.now);
    forall t1 | t1 <= c.now
      ensures available >= Scaled(c.cost, p) ==> FitsSince(p, h, c, t1)
    {
      AvailableIsBounded(p, calls, c.now, t1);
      WithOneMore(p, h, c, t1);
    }
    var t0 := AvailableIsTight(p, calls, c.now);
    WithOneMore(p, h, c, t0);
  }

  lemma DecidesByAvailable(p: Policy, calls: seq<Call>, c: Call)
    ensures Decide(Token, p, calls, c).allowed
            <==> TB.Available(TokenPart(After(Token, p, calls)), p, c.now) >= Scaled(c.cost, p)
  {}

  lemma WithOneMore(p: Policy, h: seq<Call>, c: Call, t1: int)
    ensures FitsSince(p, h, c, t1)
            <==> Scaled(CostIn(h, t1 - 1, c.now), p) + Scaled(c.cost, p) <= Scaled(Capacity(p), p) + Flow(c.now - t1, p)
  {
    var used := CostIn(h, t1 - 1, c.now);
    hide CostIn;
    Linear(used, c.cost, p);
    Units(used + c.cost, c.now - t1, p);
  }

  /** Two bucket states that are complements of each other. */
  predicate Mirrored(p: Policy, t: Option<State>, l: Option<State>) {
    match (t, l)
    case (None, None) => true
    case (Some(TokenState(tok)), Some(LeakyState(lk))) =>
      && tok.tokens + lk.level == Scaled(Capacity(p), p)
      && tok.lastRefillMs == lk.lastLeakMs
      && 0 <= tok.tokens && 0 <= lk.level
    case _ => false
  }

  /** One step keeps the mirror and gives the same answer on both sides. */
  lemma MirrorStep(p: Policy, t: Option<State>, l: Option<State>, now: int, cost: Cost)
    requires Mirrored(p, t, l)
    ensures var (t', dt) := Step(Token, t, p, now, cost);
            var (l', dl) := Step(Leaky, l, p, now, cost);
            Mirrored(p, Some(t'), Some(l')) && dt == dl
  {
    hide Scaled, Flow, Whole, FlowTime;
    Linear(0, Capacity(p), p);
    Linear(0, cost, p);
    if t.Some? { Linear(0, Max(0, now - t.value.token.lastRefillMs), p); } else { Linear(0, 0, p); }
    var (t', _) := Step(Token, t, p, now, cost);
    WholeIsNonNegative(t'.token.tokens, p);
  }

  /**
   tokens + level == capacity forever, and on every call, whatever the times,
   the two buckets give the same allowed, remaining and retryAfterMs.
   */
  lemma {:induction false} LeakyMirrorsToken(p: Policy, calls: seq<Call>, next: Call)
    ensures Mirrored(p, After(Token, p, calls), After(Leaky, p, calls))
    ensures Decide(Leaky, p, calls, next) == Decide(Token, p, calls, next)
    ensures Admitted(Leaky, p, calls) == Admitted(Token, p, calls)
  {
    hide Scaled, Flow, Whole, FlowTime;
    if |calls| > 0 {
      LeakyMirrorsToken(p, Front(calls), Last(calls));
      MirrorStep(p, After(Token, p, Front(calls)), After(Leaky, p, Front(calls)), Last(calls).now, Last(calls).cost);
    }
    MirrorStep(p, After(Token, p, calls), After(Leaky, p, calls), next.now, next.cost);
  }

  /** So the leaky bucket inherits the envelope. */
  lemma LeakyEnvelope(p: Policy, calls: seq<Call>, t1: int, t2: int)
    requires InOrder(calls) && t1 <= t2
    ensures Scaled(CostIn(Admitted(Leaky, p, calls), t1 - 1, t2), p)
            <= Scaled(Capacity(p), p) + Flow(t2 - t1, p)
    ensures CostIn(Admitted(Leaky, p, calls), t1 - 1, t2) * p.windowMs
            <= (if p.burst.Some? then p.burst.value else p.limit) * p.windowMs + (t2 - t1) * p.limit
  {
    hide Scaled, Flow, Whole, FlowTime;
    LeakyMirrorsToken(p, calls, Call(0, 1));
    TokenEnvelope(p, calls, t1, t2);
  }

  /** And decides every call over the history as the token bucket does. */
  lemma LeakyIsExact(p: Policy, calls: seq<Call>, c: Call)
    requires InOrder(calls + [c])
    ensures Decide(Leaky, p, calls, c).allowed
            <==> forall t1 :: t1 <= c.now ==> FitsSince(p, Admitted(Leaky, p, calls), c, t1)
  {
    hide Decide, Admitted, CostIn;
    LeakyMirrorsToken(p, calls, c);
    TokenIsExact(p, calls, c);
  }
}
