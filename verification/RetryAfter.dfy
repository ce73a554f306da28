/** What retryAfterMs promises a refused caller, algorithm by algorithm. */
module RetryAfter {
  import opened Common
  import opened RateLimitTypes
  import opened Runs
  import opened Buckets
  import opened FixedBounds
  import opened SlidingLog
  import opened SlidingCounter
  import FW = FixedWindow
  import TB = TokenBucket
  import SC = SlidingWindowCounter

  /** Every one of the polls, made in turn after `calls`, is refused. */
  ghost predicate AllRefused(a: Algorithm, p: Policy, calls: seq<Call>, polls: seq<Call>) {
    forall i :: 0 <= i < |polls| ==> !Decide(a, p, calls + polls[..i], polls[i]).allowed
  }

  lemma AllRefusedFront(a: Algorithm, p: Policy, calls: seq<Call>, polls: seq<Call>)
    requires AllRefused(a, p, calls, polls) && |polls| > 0
    ensures AllRefused(a, p, calls, Front(polls)) && !Decide(a, p, calls + Front(polls), Last(polls)).allowed
  {
    hide Decide;
    forall i | 0 <= i < |Front(polls)|
      ensures !Decide(a, p, calls + Front(polls)[..i], Front(polls)[i]).allowed
    {
      assert Front(polls)[..i] == polls[..i];
    }
  }

  /** Refused polls leave the admission history as it was. */
  lemma {:induction false} RefusedKeepsHistory(a: Algorithm, p: Policy, calls: seq<Call>, polls: seq<Call>)
    requires AllRefused(a, p, calls, polls)
    ensures Admitted(a, p, calls + polls) == Admitted(a, p, calls)
  {
    hide Decide, Admitted, AllRefused;
    if |polls| == 0 {
      assert calls + polls == calls;
    } else {
      AllRefusedFront(a, p, calls, polls);
      RefusedKeepsHistory(a, p, calls, Front(polls));
      assert calls + polls == calls + Front(polls) + [Last(polls)];
      Snoc(a, p, calls + Front(polls), Last(polls));
    }
  }

  lemma InOrderPrefix(calls: seq<Call>, more: seq<Call>)
    requires InOrder(calls + more)
    ensures InOrder(calls) && InOrder(more)
    ensures |calls| > 0 && |more| > 0 ==> Last(calls).now <= more[0].now && Last(calls).now <= Last(more).now
  {
    var all := calls + more;
    assert forall i :: 0 <= i < |calls| ==> calls[i] == all[i];
    assert forall i :: 0 <= i < |more| ==> more[i] == all[|calls| + i];
  }

  // ---------------------------------------------------------------- buckets

  /** A refused poll at n does not change what will be on hand at any t >= n. */
  lemma RefusalKeepsAvailable(s: TB.State, p: Policy, n: int, cost: Cost, t: int)
    requires s.lastRefillMs <= n <= t && !TB.Apply(Some(s), p, n, cost).1.allowed
    ensures TB.Available(Some(TB.Apply(Some(s), p, n, cost).0), p, t) == TB.Available(Some(s), p, t)
  {
    hide Scaled, Flow, Whole, FlowTime;
    Linear(n - s.lastRefillMs, t - n, p);
    Linear(0, t - n, p);
  }

  lemma {:induction false} PollsKeepAvailable(p: Policy, calls: seq<Call>, polls: seq<Call>, t: int)
    requires |calls| > 0 && InOrder(calls + polls) && Last(calls + polls).now <= t
    requires AllRefused(Token, p, calls, polls)
    ensures TB.Available(TokenPart(After(Token, p, calls + polls)), p, t)
        == TB.Available(TokenPart(After(Token, p, calls)), p, t)
  {
    hide After, Decide, TB.Apply, TB.Available, AllRefused;
    if |polls| == 0 {
      assert calls + polls == calls;
    } else {
      var front := calls + Front(polls);
      assert calls + polls == front + [Last(polls)];
      assert Front(calls + polls) == front;
      AllRefusedFront(Token, p, calls, polls);
      InOrderFront(calls + polls);
      PollsKeepAvailable(p, calls, Front(polls), t);
      TokenUnfolds(p, calls + polls);
      TokenRange(p, front);
      RefusalKeepsAvailable(After(Token, p, front).value.token, p, Last(polls).now, Last(polls).cost, t);
    }
  }

  lemma TokensAfterRefusal(p: Policy, calls: seq<Call>, c: Call, polls: seq<Call>, t: int)
    requires InOrder(calls + [c] + polls + [Call(t, c.cost)])
    requires !Decide(Token, p, calls, c).allowed && AllRefused(Token, p, calls + [c], polls)
    ensures t >= c.now
    ensures TB.Available(TokenPart(After(Token, p, calls + [c] + polls)), p, t)
         == Min(Scaled(Capacity(p), p), TB.Available(TokenPart(After(Token, p, calls)), p, c.now) + Flow(t - c.now, p))
  {
    hide After, Scaled, Flow, FlowTime, Whole, AllRefused, InOrder;
    var calls1 := calls + [c];
    InOrderPrefix(calls1 + polls, [Call(t, c.cost)]);
    InOrderPrefix(calls1, polls);
    assert Front(calls1) == calls && Last(calls1) == c;
    PollsKeepAvailable(p, calls1, polls, t);
    TokenUnfolds(p, calls1);
    PollsAreLater(calls1, polls, t);
    assert After(Token, p, calls1).value.token
        == TB.State(TB.Available(TokenPart(After(Token, p, calls)), p, c.now), c.now);
    Linear(0, t - c.now, p);
  }

  /**
   Token bucket: after a refusal, with any number of further refused polls and
   no admission in between, the same request is admitted at t exactly when
   t >= now + retryAfterMs - provided it fits the bucket at all; otherwise never.
   */
  lemma TokenRetryIsExact(p: Policy, calls: seq<Call>, c: Call, polls: seq<Call>, t: int)
    requires InOrder(calls + [c] + polls + [Call(t, c.cost)])
    requires !Decide(Token, p, calls, c).allowed && AllRefused(Token, p, calls + [c], polls)
    ensures Decide(Token, p, calls + [c] + polls, Call(t, c.cost)).allowed
            <==> c.cost <= (if p.burst.Some? then p.burst.value else p.limit)
                 && t >= c.now + Decide(Token, p, calls, c).retryAfterMs
  {
    hide After, Scaled, Flow, FlowTime, Whole, AllRefused, InOrder, TokenPart, TB.Available;
    TokensAfterRefusal(p, calls, c, polls, t);
    var need := Scaled(c.cost, p) - TB.Available(TokenPart(After(Token, p, calls)), p, c.now);
    Linear(c.cost, Capacity(p), p);
    Linear(Capacity(p), c.cost, p);
    FlowTimeIsThreshold(need, t - c.now, p);
    TokenDecides(p, calls + [c] + polls, Call(t, c.cost));
    TokenDecides(p, calls, c);
    if c.cost > Capacity(p) { assert Scaled(c.cost, p) > Scaled(Capacity(p), p); }
  }

  lemma PollsAreLater(calls: seq<Call>, polls: seq<Call>, t: int)
    requires |calls| > 0 && InOrder(calls + polls) && Last(calls + polls).now <= t
    ensures Last(calls).now <= t
  {
    InOrderPrefix(calls, polls);
    if |polls| > 0 { assert Last(calls + polls) == Last(polls); } else { assert calls + polls == calls; }
  }

  lemma TokenDecides(p: Policy, calls: seq<Call>, c: Call)
    ensures Decide(Token, p, calls, c) == TB.Apply(TokenPart(After(Token, p, calls)), p, c.now, c.cost).1
  {
  }

  /** Leaky bucket: the same promise, inherited through the mirror. */
  lemma LeakyRetryIsExact(p: Policy, calls: seq<Call>, c: Call, polls: seq<Call>, t: int)
    requires InOrder(calls + [c] + polls + [Call(t, c.cost)])
    requires !Decide(Leaky, p, calls, c).allowed && AllRefused(Leaky, p, calls + [c], polls)
    ensures Decide(Leaky, p, calls + [c] + polls, Call(t, c.cost)).allowed
            <==> c.cost <= (if p.burst.Some? then p.burst.value else p.limit)
                 && t >= c.now + Decide(Leaky, p, calls, c).retryAfterMs
  {
    hide Decide, InOrder;
    forall i | 0 <= i < |polls|
      ensures !Decide(Token, p, calls + [c] + polls[..i], polls[i]).allowed
    {
      LeakyMirrorsToken(p, calls + [c] + polls[..i], polls[i]);
    }
    LeakyMirrorsToken(p, calls, c);
    LeakyMirrorsToken(p, calls + [c] + polls, Call(t, c.cost));
    TokenRetryIsExact(p, calls, c, polls, t);
  }

  // ----------------------------------------------------------- fixed window

  function CountAt(s: Option<FW.State>, p: Policy, t: int): int {
    if s.Some? && s.value.windowStart == WindowStart(t, p.windowMs) then s.value.count else 0
  }

  lemma FixedUnfolds(p: Policy, calls: seq<Call>, c: Call)
    ensures Decide(Fixed, p, calls, c) == FW.Apply(FixedPart(After(Fixed, p, calls)), p, c.now, c.cost).1
    ensures After(Fixed, p, calls + [c]) == Some(FixedState(FW.Apply(FixedPart(After(Fixed, p, calls)), p, c.now,
        c.cost).0))
  {
    hide After;
    Snoc(Fixed, p, calls, c);
  }

  lemma {:induction false} PollsKeepCount(p: Policy, calls: seq<Call>, polls: seq<Call>, t: int)
    requires |calls| > 0 && InOrder(calls + polls) && Last(calls + polls).now <= t
    requires AllRefused(Fixed, p, calls, polls)
    ensures CountAt(FixedPart(After(Fixed, p, calls + polls)), p, t) == CountAt(FixedPart(After(Fixed, p, calls)), p, t)
    ensures After(Fixed, p, calls + polls).value.fixed.windowStart == WindowStart(Last(calls + polls).now, p.windowMs)
  {
    hide After, Decide, AllRefused, WindowStart, InOrder;
    var all := calls + polls;
    FixedUnfolds(p, Front(all), Last(all));
    assert all == Front(all) + [Last(all)];
    if |polls| == 0 {
      assert all == calls;
    } else {
      assert Front(all) == calls + Front(polls);
      AllRefusedFront(Fixed, p, calls, polls);
      InOrderFront(all);
      PollsKeepCount(p, calls, Front(polls), t);
      var m, n, w := Last(Front(all)).now, Last(all).now, p.windowMs;
      WindowStartBounds(m, w);
      WindowStartBounds(n, w);
      WindowStartBounds(t, w);
      WindowStartsApart(m, n, w);
      WindowStartsApart(n, t, w);
    }
  }

  /** Fixed window: exact for every cost that fits the limit; a larger one is never admitted. */
  lemma FixedRetryIsExact(p: Policy, calls: seq<Call>, c: Call, polls: seq<Call>, t: int)
    requires InOrder(calls + [c] + polls + [Call(t, c.cost)])
    requires !Decide(Fixed, p, calls, c).allowed && AllRefused(Fixed, p, calls + [c], polls)
    ensures Decide(Fixed, p, calls + [c] + polls, Call(t, c.cost)).allowed
            <==> c.cost <= p.limit && t >= c.now + Decide(Fixed, p, calls, c).retryAfterMs
  {
    hide After, AllRefused, InOrder, WindowStart;
    var calls1, w := calls + [c], p.windowMs;
    InOrderPrefix(calls1 + polls, [Call(t, c.cost)]);
    PollsAreLater(calls1, polls, t);
    PollsKeepCount(p, calls1, polls, t);
    FixedUnfolds(p, calls, c);
    FixedUnfolds(p, calls1 + polls, Call(t, c.cost));
    WindowStartBounds(c.now, w);
    WindowStartBounds(t, w);
    WindowStartsApart(c.now, t, w);
  }

  // ------------------------------------------------------------ sliding log

  lemma {:induction false} CostInHas(h: seq<Call>, k: nat, lo: int, hi: int)
    requires k < |h| && lo < h[k].now <= hi
    ensures CostIn(h, lo, hi) >= 1
  {
    if k < |h| - 1 { CostInHas(Front(h), k, lo, hi); }
  }

  lemma {:induction false} CostInNone(h: seq<Call>, lo: int, hi: int)
    requires forall c :: c in h ==> !(lo < c.now <= hi)
    ensures CostIn(h, lo, hi) == 0
  {
    if |h| > 0 { CostInNone(Front(h), lo, hi); }
  }

  /** The oldest live entry: nothing live is earlier, and it weighs at least one. */
  lemma OldestFacts(h: seq<Call>, lo: int, now: int, x: int)
    requires InOrder(h) && (forall c :: c in h ==> c.now <= now) && lo < now
    ensures var o := OldestAfter(h, lo, now);
            && lo < o <= now
            && (lo <= x < o && x <= now ==> CostIn(h, lo, x) == 0)
            && (CostIn(h, lo, now) > 0 ==> CostIn(h, o, now) < CostIn(h, lo, now))
  {
    hide CostIn, OldestAfter, SL.Alive;
    var k := |h| - |SL.Alive(h, lo)|;
    AliveIsSuffix(h, lo);
    OldestIsFirst(h, k, lo, now);
    var o := OldestAfter(h, lo, now);
    if k < |h| {
      assert h[k] in h && h[k] == SL.Alive(h, lo)[0];
      CostInHas(h, k, lo, o);
      CostInSplits(h, lo, o, now);
    } else {
      CostInNone(h, lo, now);
    }
    if lo <= x < o {
      assert forall c :: c in h ==> !(lo < c.now <= x) by {
        forall c | c in h
          ensures !(lo < c.now <= x)
        {
          var i :| 0 <= i < |h| && h[i] == c;
          if i > k { assert h[k].now <= h[i].now; }
        }
      }
      CostInNone(h, lo, x);
    }
  }

  /** The same over the complete history: when a refused request first fits. */
  lemma SpecLater(p: Policy, h: seq<Call>, c: Call, t: int)
    requires InOrder(h) && (forall x :: x in h ==> x.now <= c.now) && c.now <= t
    requires !SpecDecision(h, p, c).allowed
    ensures SpecDecision(h, p, Call(t, c.cost)).allowed
            <==> t >= c.now + SpecDecision(h, p, c).retryAfterMs && CostIn(h, t - p.windowMs, c.now) + c.cost <= p.limit
  {
    hide CostIn, OldestAfter;
    var w := p.windowMs;
    CostInClips(h, t - w, t, c.now);
    OldestFacts(h, c.now - w, c.now, t - w);
    if t - w < OldestAfter(h, c.now - w, c.now) {
      CostInSplits(h, c.now - w, t - w, c.now);
    }
  }

  lemma LogDecidesLater(p: Policy, calls: seq<Call>, c: Call, polls: seq<Call>, next: Call)
    requires InOrder(calls + [c] + polls + [next])
    requires !Decide(Log, p, calls, c).allowed && AllRefused(Log, p, calls + [c], polls)
    ensures InOrder(Admitted(Log, p, calls)) && (forall x :: x in Admitted(Log, p, calls) ==> x.now <= c.now)
        && c.now <= next.now
    ensures Decide(Log, p, calls, c) == SpecDecision(Admitted(Log, p, calls), p, c)
    ensures Decide(Log, p, calls + [c] + polls, next) == SpecDecision(Admitted(Log, p, calls), p, next)
  {
    hide Decide, After, Admitted, SpecDecision, AllRefused, InOrder;
    InOrderPrefix(calls + [c] + polls, [next]);
    PollsAreLater(calls + [c], polls, next.now);
    InOrderPrefix(calls + [c], polls);
    LogIsExact(p, calls, c);
    LogIsExact(p, calls + [c] + polls, next);
    RefusedKeepsHistory(Log, p, calls + [c], polls);
    Snoc(Log, p, calls, c);
    assert Admitted(Log, p, calls) + [] == Admitted(Log, p, calls);
    PrunedHistory(p, calls, c);
  }

  /**
   Sliding log, every cost: never admitted before now + retryAfterMs; from then
   on admitted exactly when the entries then live leave room.
   */
  lemma LogRetryIsLowerBound(p: Policy, calls: seq<Call>, c: Call, polls: seq<Call>, t: int)
    requires InOrder(calls + [c] + polls + [Call(t, c.cost)])
    requires !Decide(Log, p, calls, c).allowed && AllRefused(Log, p, calls + [c], polls)
    ensures var h := Admitted(Log, p, calls);
            Decide(Log, p, calls + [c] + polls, Call(t, c.cost)).allowed
            <==>
            && t >= c.now + Decide(Log, p, calls, c).retryAfterMs
            && CostIn(h, t - p.windowMs, c.now) + c.cost <= p.limit
  {
    hide Decide, After, Admitted, CostIn, SpecDecision, AllRefused, InOrder;
    LogDecidesLater(p, calls, c, polls, Call(t, c.cost));
    SpecLater(p, Admitted(Log, p, calls), c, t);
  }

  /**
   Sliding log: retryAfterMs is exact if and only if dropping the entries that
   share the oldest live timestamp makes room for the request. Otherwise the
   request is still refused at that very instant.
   */
  lemma LogRetryExactWhen(p: Policy, calls: seq<Call>, c: Call, polls: seq<Call>, t: int)
    requires InOrder(calls + [c] + polls + [Call(t, c.cost)])
    requires !Decide(Log, p, calls, c).allowed && AllRefused(Log, p, calls + [c], polls)
    ensures var h, due := Admitted(Log, p, calls), c.now + Decide(Log, p, calls, c).retryAfterMs;
            if FirstDropMakesRoom(p, h, c)
            then Decide(Log, p, calls + [c] + polls, Call(t, c.cost)).allowed <==> t >= due
            else t == due ==> !Decide(Log, p, calls + [c] + polls, Call(t, c.cost)).allowed
  {
    hide Decide, After, Admitted, CostIn, AllRefused, InOrder;
    var h, w := Admitted(Log, p, calls), p.windowMs;
    var o := OldestAfter(h, c.now - w, c.now);
    InOrderPrefix(calls + [c] + polls, [Call(t, c.cost)]);
    InOrderPrefix(calls + [c], polls);
    LogRetryIsLowerBound(p, calls, c, polls, t);
    LogIsExact(p, calls, c);
    assert c.now + Decide(Log, p, calls, c).retryAfterMs == o + w;
    if t - w > c.now {
      PrunedHistory(p, calls, c);
      CostInClips(h, t - w, c.now, c.now);
      CostInNoneAbove(h, o, t - w, c.now);
    } else if t - w >= o {
      CostInSplits(h, o, t - w, c.now);
    }
  }

  /** What a caller can compute at the refusal: the cost left once the oldest timestamp expires. */
  ghost predicate FirstDropMakesRoom(p: Policy, h: seq<Call>, c: Call) {
    CostIn(h, OldestAfter(h, c.now - p.windowMs, c.now), c.now) + c.cost <= p.limit
  }

  lemma CostInNoneAbove(h: seq<Call>, o: int, lo: int, hi: int)
    requires lo > hi
    ensures CostIn(h, lo, hi) == 0 <= CostIn(h, o, hi)
  {
    hide CostIn;
    CostInNone(h, lo, hi);
  }

  /** For requests of cost 1 it is always exact. */
  lemma LogRetryIsExactForCostOne(p: Policy, calls: seq<Call>, c: Call)
    requires InOrder(calls + [c]) && c.cost == 1 && !Decide(Log, p, calls, c).allowed
    ensures FirstDropMakesRoom(p, Admitted(Log, p, calls), c)
  {
    hide Decide, Admitted, CostIn, OldestAfter, InOrder;
    LogIsExact(p, calls, c);
    PrunedHistory(p, calls, c);
    LogWindowBound(p, calls, c.now);
    OldestFacts(Admitted(Log, p, calls), c.now - p.windowMs, c.now, c.now);
  }

  // -------------------------------------------------------- sliding counter

  ghost predicate InRange(p: Policy, s: SC.State) {
    0 <= s.previousCount <= p.limit && 0 <= s.currentCount <= p.limit
  }

  lemma WeightedWithinFlow(count: int, d: int, p: Policy)
    requires 0 <= count <= p.limit && d >= 0
    ensures 0 <= Weighted(count, d) <= Flow(d, p)
  {
    MulMonotone(count, p.limit, d);
  }

  lemma NoWeight(span: int)
    ensures Weighted(0, span) == 0
  {
  }

  /**
   Across any number of window rollovers the estimate never falls faster
   than limit / windowMs per ms.
   */
  lemma EstimateDecay(p: Policy, s: SC.State, anchor: int, t1: int, t2: int)
    requires InRange(p, s) && s.windowStart == WindowStart(anchor, p.windowMs) && anchor <= t1 <= t2
    ensures SC.Estimate(Some(s), p, t2) >= SC.Estimate(Some(s), p, t1) - Flow(t2 - t1, p)
  {
    hide WindowStart, Scaled, Weighted, Flow;
    var w, ws := p.windowMs, s.windowStart;
    var ws1, ws2 := WindowStart(t1, w), WindowStart(t2, w);
    WindowStartBounds(anchor, w);
    WindowStartBounds(t1, w);
    WindowStartBounds(t2, w);
    WindowStartsApart(anchor, t1, w);
    WindowStartsApart(anchor, t2, w);
    WindowStartsApart(t1, t2, w);
    var prev, cur := s.previousCount, s.currentCount;
    WeightedFullWindow(cur, p);
    Linear(0, t2 - t1, p);
    NoWeight(w - (t1 - ws1));
    NoWeight(w - (t2 - ws2));
    Linear(0, 0, p);
    if ws1 == ws {
      var e1 := t1 - ws;
      WeightedWithinFlow(prev, w - e1, p);
      if ws2 == ws {
        WeightedFacts(prev, w - e1, w - (t2 - ws));
        WeightedWithinFlow(prev, t2 - t1, p);
      } else if ws2 == ws + w {
        WeightedFacts(cur, w, t2 - ws2);
        WeightedWithinFlow(cur, t2 - ws2, p);
        Linear(w - e1, t2 - ws2, p);
      } else {
        WeightedWithinFlow(cur, w, p);
        Linear(w - e1, w, p);
        Linear(w - e1 + w, t2 - t1, p);
      }
    } else if ws1 == ws + w {
      var e1 := t1 - ws1;
      if ws2 == ws1 {
        WeightedFacts(cur, w - e1, w - (t2 - ws1));
        WeightedWithinFlow(cur, t2 - t1, p);
      } else {
        WeightedWithinFlow(cur, w - e1, p);
        Linear(w - e1, t2 - t1, p);
      }
    }
  }

  lemma WeightedMore(count: int, cost: Cost, span: int)
    requires span >= 0
    ensures Weighted(count, span) <= Weighted(count + cost, span)
  {
    MulMonotone(count, count + cost, span);
  }

  /** A call, admitted or not, never lowers the estimate at any later instant. */
  lemma CallsKeepEstimate(p: Policy, s: SC.State, anchor: int, n: int, cost: Cost, t: int)
    requires InRange(p, s) && s.windowStart == WindowStart(anchor, p.windowMs) && anchor <= n <= t
    ensures var (s', d), before := SC.Apply(Some(s), p, n, cost), SC.Estimate(Some(s), p, t);
            if d.allowed then SC.Estimate(Some(s'), p, t) >= before else SC.Estimate(Some(s'), p, t) == before
  {
    hide WindowStart, Scaled, Weighted, Whole, FlowTime;
    var w := p.windowMs;
    WindowStartBounds(anchor, w);
    WindowStartBounds(n, w);
    WindowStartBounds(t, w);
    WindowStartsApart(anchor, n, w);
    WindowStartsApart(anchor, t, w);
    WindowStartsApart(n, t, w);
    var (prev, cur) := SC.CarryForward(Some(s), WindowStart(n, w), w);
    Linear(cur, cur + cost, p);
    WeightedMore(cur, cost, Max(0, w - (t - WindowStart(t, w))));
  }

  lemma {:induction false} RunKeepsEstimate(p: Policy, calls: seq<Call>, more: seq<Call>, t: int)
    requires |calls| > 0 && InOrder(calls + more) && Last(calls + more).now <= t
    ensures SC.Estimate(CounterPart(After(Counter, p, calls + more)), p, t)
            >= SC.Estimate(CounterPart(After(Counter, p, calls)), p, t)
  {
    hide After, SC.Apply, SC.Estimate, WindowStart, InOrder, CostIn, Decide;
    var all := calls + more;
    if |more| == 0 {
      assert all == calls;
    } else {
      assert Front(all) == calls + Front(more);
      InOrderFront(all);
      RunKeepsEstimate(p, calls, Front(more), t);
      CounterUnfolds(p, all);
      CountsAreExact(p, Front(all));
      CallsKeepEstimate(p, After(Counter, p, Front(all)).value.counter, Last(Front(all)).now, Last(all).now,
          Last(all).cost, t);
    }
  }

  /**
   Sliding counter: whatever calls are made after a refusal, admitted or not,
   no request of that cost or more is admitted before now + retryAfterMs.
   */
  lemma CounterRetryIsLowerBound(p: Policy, calls: seq<Call>, c: Call, more: seq<Call>, next: Call)
    requires InOrder(calls + [c] + more + [next])
    requires !Decide(Counter, p, calls, c).allowed
    requires next.cost >= c.cost && next.now < c.now + Decide(Counter, p, calls, c).retryAfterMs
    ensures !Decide(Counter, p, calls + [c] + more, next).allowed
  {
    hide After, Decide, SC.Apply, SC.Estimate, InOrder, Flow, FlowTime, Scaled;
    var all := calls + [c] + more;
    EstimateLater(p, calls, c, more, next);
    var lack := SC.Estimate(CounterPart(After(Counter, p, calls)), p, c.now) + Scaled(c.cost, p) - Scaled(p.limit, p);
    FlowTimeIsThreshold(lack, next.now - c.now, p);
    Linear(c.cost, next.cost, p);
    CounterDecides(p, calls, c);
    CounterDecides(p, all, next);
  }

  lemma EstimateLater(p: Policy, calls: seq<Call>, c: Call, more: seq<Call>, next: Call)
    requires InOrder(calls + [c] + more + [next])
    requires !Decide(Counter, p, calls, c).allowed
    ensures SC.Estimate(CounterPart(After(Counter, p, calls + [c] + more)), p, next.now)
            >= SC.Estimate(CounterPart(After(Counter, p, calls)), p, c.now) - Flow(next.now - c.now, p)
  {
    hide After, Decide, SC.Apply, SC.Estimate, WindowStart, InOrder, CostIn, Flow;
    var calls1, all := calls + [c], calls + [c] + more;
    InOrderPrefix(all, [next]);
    PollsAreLater(calls1, more, next.now);
    InOrderPrefix(calls1, more);
    RunKeepsEstimate(p, calls1, more, next.now);
    CounterUnfolds(p, calls1);
    assert Front(calls1) == calls && Last(calls1) == c;
    CountsAreExact(p, calls1);
    EstimateDecay(p, After(Counter, p, calls1).value.counter, c.now, c.now, next.now);
    RefusalKeepsEstimate(p, CounterPart(After(Counter, p, calls)), c);
  }

  lemma CounterDecides(p: Policy, calls: seq<Call>, c: Call)
    ensures var s := CounterPart(After(Counter, p, calls));
            var lack, d := SC.Estimate(s, p, c.now) + Scaled(c.cost, p) - Scaled(p.limit, p),
                Decide(Counter, p, calls, c);
            d == SC.Apply(s, p, c.now, c.cost).1 && d.allowed == (lack <= 0)
                && (!d.allowed ==> d.retryAfterMs == FlowTime(lack, p))
  {
    hide After, SC.Estimate, WindowStart, FlowTime, Scaled, Whole;
  }

  lemma RefusalKeepsEstimate(p: Policy, s: Option<SC.State>, c: Call)
    requires !SC.Apply(s, p, c.now, c.cost).1.allowed
    ensures SC.Estimate(Some(SC.Apply(s, p, c.now, c.cost).0), p, c.now) == SC.Estimate(s, p, c.now)
  {
    hide WindowStart, Scaled, Weighted, Whole, FlowTime;
  }

  /** How far the estimate falls in the r ms after an instant e ms into its window. */
  function Drop(prev: int, cur: int, e: int, r: int, w: int): int {
    Weighted(prev, Min(r, w - e)) + Weighted(cur, Min(w, Max(0, r - (w - e))))
  }

  lemma EstimateDrop(p: Policy, s: SC.State, t: int, r: int)
    requires InRange(p, s) && s.windowStart == WindowStart(t, p.windowMs) && r >= 0
    ensures SC.Estimate(Some(s), p, t + r)
            == SC.Estimate(Some(s), p, t) - Drop(s.previousCount, s.currentCount, t - s.windowStart, r, p.windowMs)
  {
    hide WindowStart, Scaled, Weighted;
    var w, ws, prev, cur := p.windowMs, s.windowStart, s.previousCount, s.currentCount;
    var ws2, e := WindowStart(t + r, w), t - ws;
    WindowStartBounds(t, w);
    WindowStartBounds(t + r, w);
    WindowStartsApart(t, t + r, w);
    WeightedFullWindow(cur, p);
    Linear(0, 0, p);
    NoWeight(w - (t + r - ws2));
    WeightedFacts(prev, 0, 0);
    WeightedFacts(cur, 0, 0);
    WeightedFacts(prev, w - e, r);
    WeightedFacts(cur, w, r - (w - e));
  }

  lemma {:induction false} PollsKeepEstimate(p: Policy, calls: seq<Call>, polls: seq<Call>, t: int)
    requires |calls| > 0 && InOrder(calls + polls) && Last(calls + polls).now <= t
    requires AllRefused(Counter, p, calls, polls)
    ensures SC.Estimate(CounterPart(After(Counter, p, calls + polls)), p, t)
            == SC.Estimate(CounterPart(After(Counter, p, calls)), p, t)
  {
    hide After, SC.Apply, SC.Estimate, WindowStart, InOrder, CostIn, Decide, AllRefused;
    var all := calls + polls;
    if |polls| == 0 {
      assert all == calls;
    } else {
      assert Front(all) == calls + Front(polls) && Last(all) == Last(polls);
      AllRefusedFront(Counter, p, calls, polls);
      InOrderFront(all);
      PollsKeepEstimate(p, calls, Front(polls), t);
      CounterUnfolds(p, all);
      CountsAreExact(p, Front(all));
      CallsKeepEstimate(p, After(Counter, p, Front(all)).value.counter, Last(Front(all)).now, Last(all).now,
          Last(all).cost, t);
    }
  }

  /**
   With only refused polls in between, the counter's retryAfterMs is exact if
   and only if the two windows' counts, known at the refusal, fall off fast
   enough within it to cover what was lacking.
   */
  lemma CounterRetryExactWhen(p: Policy, calls: seq<Call>, c: Call, polls: seq<Call>)
    requires InOrder(calls + [c] + polls)
    requires !Decide(Counter, p, calls, c).allowed && AllRefused(Counter, p, calls + [c], polls)
    requires Last(calls + [c] + polls).now <= c.now + Decide(Counter, p, calls, c).retryAfterMs
    ensures var s, r := After(Counter, p, calls + [c]).value.counter, Decide(Counter, p, calls, c).retryAfterMs;
            var lack := SC.Estimate(CounterPart(After(Counter, p, calls)), p, c.now) + Scaled(c.cost,
                p) - Scaled(p.limit, p);
            Decide(Counter, p, calls + [c] + polls, Call(c.now + r, c.cost)).allowed
            <==> Drop(s.previousCount, s.currentCount, c.now - s.windowStart, r, p.windowMs) >= lack
  {
    hide After, Decide, SC.Apply, SC.Estimate, WindowStart, InOrder, CostIn, Scaled, AllRefused, Drop;
    var calls1, r := calls + [c], Decide(Counter, p, calls, c).retryAfterMs;
    assert Front(calls1) == calls && Last(calls1) == c;
    InOrderPrefix(calls1, polls);
    PollsAreLater(calls1, polls, c.now + r);
    PollsKeepEstimate(p, calls1, polls, c.now + r);
    CountsAreExact(p, calls1);
    CounterUnfolds(p, calls1);
    EstimateDrop(p, After(Counter, p, calls1).value.counter, c.now, r);
    RefusalKeepsEstimate(p, CounterPart(After(Counter, p, calls)), c);
    CounterDecides(p, calls, c);
    CounterDecides(p, calls1 + polls, Call(c.now + r, c.cost));
  }

  /**
   It is only a lower bound: a window filled at t = 900 refuses at 950 with
   retryAfterMs = 100, and still refuses at 1050.
   */
  lemma CounterRetryIsNotExact()
    ensures var p := PolicyData(10, 1000, None);
            var calls, c := [Call(900, 10)], Call(950, 1);
            && !Decide(Counter, p, calls, c).allowed
            && Decide(Counter, p, calls, c).retryAfterMs == 100
            && !Decide(Counter, p, calls + [c], Call(1050, 1)).allowed
  {
    var p: Policy := PolicyData(10, 1000, None);
    var c0, c1, c2 := Call(900, 10), Call(950, 1), Call(1050, 1);
    var r0 := SC.Apply(None, p, 900, 10);
    var r1 := SC.Apply(Some(r0.0), p, 950, 1);
    assert Front([c0]) == [] && Front([c0, c1]) == [c0];
    assert After(Counter, p, []) == None;
    assert After(Counter, p, [c0]) == Some(CounterState(r0.0));
    assert After(Counter, p, [c0, c1]) == Some(CounterState(r1.0));
    assert [c0] + [c1] == [c0, c1];
  }
}
