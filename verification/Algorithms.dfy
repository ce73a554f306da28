/**
 The five state-transition functions. A bucket level is kept in units of
 1/windowMs token, so that `elapsed * limit / windowMs` is a whole number of
 units and the arithmetic is exact.
 */
module FixedWindow {
  import opened Common
  import opened RateLimitTypes

  datatype State = State(windowStart: int, count: int)

  function Apply(state: Option<State>, p: Policy, now: int, cost: Cost): (State, Decision) {
    var windowStart := WindowStart(now, p.windowMs);
    var currentCount := if state.Some? && state.value.windowStart == windowStart then state.value.count else 0;
    var projected := currentCount + cost;
    var allowed := projected <= p.limit;
    var count := if allowed then projected else currentCount;
    (State(windowStart, count),
     Decision(allowed, p.limit, Max(0, p.limit - count),
              if allowed then 0 else windowStart + p.windowMs - now))
  }
}

module TokenBucket {
  import opened Common
  import opened RateLimitTypes

  datatype State = State(tokens: int, lastRefillMs: int)

  /** Tokens on hand at `now`, before the call is charged. */
  function Available(state: Option<State>, p: Policy, now: int): int {
    var capacity := Scaled(Capacity(p), p);
    var lastRefillMs := if state.Some? then state.value.lastRefillMs else now;
    var elapsed := Max(0, now - lastRefillMs);
    Min(capacity, (if state.Some? then state.value.tokens else capacity) + Flow(elapsed, p))
  }

  function Apply(state: Option<State>, p: Policy, now: int, cost: Cost): (State, Decision) {
    var available := Available(state, p, now);
    var allowed := available >= Scaled(cost, p);
    var tokens := if allowed then available - Scaled(cost, p) else available;
    (State(tokens, now),
     Decision(allowed, p.limit, Whole(tokens, p),
              if allowed then 0 else FlowTime(Scaled(cost, p) - available, p)))
  }
}

module LeakyBucket {
  import opened Common
  import opened RateLimitTypes

  datatype State = State(level: int, lastLeakMs: int)

  /** What is still queued at `now`, before the call is added. */
  function Level(state: Option<State>, p: Policy, now: int): int {
    var lastLeakMs := if state.Some? then state.value.lastLeakMs else now;
    var elapsed := Max(0, now - lastLeakMs);
    Max(0, (if state.Some? then state.value.level else 0) - Flow(elapsed, p))
  }

  function Apply(state: Option<State>, p: Policy, now: int, cost: Cost): (State, Decision) {
    var capacity := Scaled(Capacity(p), p);
    var level := Level(state, p, now);
    var allowed := level + Scaled(cost, p) <= capacity;
    var nextLevel := if allowed then level + Scaled(cost, p) else level;
    (State(nextLevel, now),
     Decision(allowed, p.limit, Max(0, Whole(capacity - nextLevel, p)),
              if allowed then 0 else FlowTime(level + Scaled(cost, p) - capacity, p)))
  }
}

module SlidingWindowLog {
  import opened Common
  import opened RateLimitTypes

  datatype State = State(entries: seq<Call>)

  /** The entries later than `windowStart`, in order. */
  function Alive(entries: seq<Call>, windowStart: int): seq<Call> {
    if |entries| == 0 then []
    else
      var rest := Alive(entries[..|entries| - 1], windowStart);
      var last := entries[|entries| - 1];
      if last.now > windowStart then rest + [last] else rest
  }

  function TotalCost(entries: seq<Call>): int {
    if |entries| == 0 then 0 else TotalCost(entries[..|entries| - 1]) + entries[|entries| - 1].cost
  }

  function Apply(state: Option<State>, p: Policy, now: int, cost: Cost): (State, Decision) {
    var alive := Alive(if state.Some? then state.value.entries else [], now - p.windowMs);
    var currentCount := TotalCost(alive);
    var allowed := currentCount + cost <= p.limit;
    var finalCount := if allowed then currentCount + cost else currentCount;
    (State(if allowed then alive + [Call(now, cost)] else alive),
     Decision(allowed, p.limit, Max(0, p.limit - finalCount),
              if allowed then 0 else (if |alive| > 0 then alive[0].now else now) + p.windowMs - now))
  }
}

module SlidingWindowCounter {
  import opened Common
  import opened RateLimitTypes

  datatype State = State(windowStart: int, previousCount: int, currentCount: int)

  function CarryForward(state: Option<State>, windowStart: int, windowMs: int): (int, int) {
    if state.None? then (0, 0)
    else if state.value.windowStart == windowStart then (state.value.previousCount, state.value.currentCount)
    else if state.value.windowStart == windowStart - windowMs then (state.value.currentCount, 0)
    else (0, 0)
  }

  /** The weighted estimate at `now`, in units of 1/windowMs. */
  function Estimate(state: Option<State>, p: Policy, now: int): int {
    var windowStart := WindowStart(now, p.windowMs);
    var (previousCount, currentCount) := CarryForward(state, windowStart, p.windowMs);
    var elapsedInWindow := now - windowStart;
    Weighted(previousCount, Max(0, p.windowMs - elapsedInWindow)) + Scaled(currentCount, p)
  }

  function Apply(state: Option<State>, p: Policy, now: int, cost: Cost): (State, Decision) {
    var windowStart := WindowStart(now, p.windowMs);
    var (previousCount, currentCount) := CarryForward(state, windowStart, p.windowMs);
    var estimate := Estimate(state, p, now);
    var allowed := estimate + Scaled(cost, p) <= Scaled(p.limit, p);
    var charged := if allowed then estimate + Scaled(cost, p) else estimate;
    (State(windowStart, previousCount, if allowed then currentCount + cost else currentCount),
     Decision(allowed, p.limit, Max(0, Whole(Scaled(p.limit, p) - charged, p)),
              if allowed then 0 else FlowTime(estimate + Scaled(cost, p) - Scaled(p.limit, p), p)))
  }
}
