/** The five Lua scripts, statement by statement, on one shared Redis. */
module RedisScripts {
  import opened Common
  import opened RateLimitTypes
  import opened Runs
  import opened Stores
  import FW = FixedWindow
  import TB = TokenBucket
  import LB = LeakyBucket
  import SC = SlidingWindowCounter

  /** Wider than any script needs: all five read only limit, windowMs and capacity. */
  function ArgvPolicy(limit: int, windowMs: int, capacity: int): Policy
    requires limit >= 1 && windowMs >= 1 && capacity >= 1
  {
    PolicyData(limit, windowMs, Some(capacity))
  }

  lemma SameRates(p: Policy, q: Policy, x: int)
    requires p.limit == q.limit && p.windowMs == q.windowMs
    ensures Scaled(x, p) == Scaled(x, q) && Whole(x, p) == Whole(x, q)
    ensures Flow(x, p) == Flow(x, q) && FlowTime(x, p) == FlowTime(x, q)
  {}

  predicate SamePolicy(p: Policy, q: Policy) {
    p.limit == q.limit && p.windowMs == q.windowMs && Capacity(p) == Capacity(q)
  }

  lemma BucketsAgree(t: Option<TB.State>, l: Option<LB.State>, p: Policy, q: Policy, now: int, cost: Cost)
    requires SamePolicy(p, q)
    ensures TB.Apply(t, p, now, cost) == TB.Apply(t, q, now, cost)
    ensures LB.Apply(l, p, now, cost) == LB.Apply(l, q, now, cost)
  {
    hide FlowTime;
    forall x ensures FlowTime(x, p) == FlowTime(x, q) { SameRates(p, q, x); }
  }

  lemma CountersAgree(f: Option<FW.State>, c: Option<SC.State>, p: Policy, q: Policy, now: int, cost: Cost)
    requires SamePolicy(p, q)
    ensures FW.Apply(f, p, now, cost) == FW.Apply(f, q, now, cost)
    ensures SC.Apply(c, p, now, cost) == SC.Apply(c, q, now, cost)
  {
    hide FlowTime, WindowStart, SC.CarryForward;
    forall x ensures FlowTime(x, p) == FlowTime(x, q) { SameRates(p, q, x); }
  }

  /** Passing `burst ?? limit` as the capacity argument changes nothing. */
  lemma CapacityIsEnough(a: Algorithm, s: Option<State>, p: Policy, now: int, cost: Cost)
    requires s.Some? ==> Fits(a, s.value)
    ensures Step(a, s, ArgvPolicy(p.limit, p.windowMs, Capacity(p)), now, cost) == Step(a, s, p, now, cost)
    ensures Ttl(a, ArgvPolicy(p.limit, p.windowMs, Capacity(p))) == Ttl(a, p)
  {
    hide TB.Apply, LB.Apply, FW.Apply, SC.Apply, FlowTime, Scaled;
    var q := ArgvPolicy(p.limit, p.windowMs, Capacity(p));
    SameRates(p, q, Capacity(p));
    SameRates(p, q, Scaled(Capacity(p), p));
    match a {
      case Fixed => CountersAgree(if s.Some? then Some(s.value.fixed) else None, None, p, q, now, cost);
      case Token => BucketsAgree(if s.Some? then Some(s.value.token) else None, None, p, q, now, cost);
      case Leaky => BucketsAgree(None, if s.Some? then Some(s.value.leaky) else None, p, q, now, cost);
      case Log =>
      case Counter => CountersAgree(None, if s.Some? then Some(s.value.counter) else None, p, q, now, cost);
    }
  }

  /** HMGET of one field. */
  function Field(v: Option<Value>, name: string): Option<int> {
    if v.Some? && v.value.Hash? && name in v.value.fields then Some(v.value.fields[name]) else None
  }

  /** What the store's algorithm starts from: the live hash's state, if it has one. */
  function Found(a: Algorithm, v: Option<Value>): (s: Option<State>)
    ensures s.Some? ==> Fits(a, s.value)
  {
    if v.Some? && v.value.Hash? then Decode(a, v.value.fields) else None
  }

  /** The scripts read single fields, with defaults; on a readable hash that is the decoded state. */
  lemma TokensRead(v: Option<Value>, p: Policy, now: int)
    requires Readable(v)
    ensures var s, tokens := Found(Token, v), Field(v, "tokens");
            && (tokens.Some? ==> Field(v, "ts").Some?)
            && TB.Available(if s.Some? then Some(s.value.token) else None, p, now)
               == if tokens.Some? then Min(Scaled(Capacity(p), p),
                   tokens.value + Flow(Max(0, now - Field(v, "ts").value), p))
                  else Scaled(Capacity(p), p)
  {
    hide Scaled, Flow;
    Linear(0, 0, p);
  }

  lemma LevelRead(v: Option<Value>, p: Policy, now: int)
    requires Readable(v)
    ensures var s, level, ts := Found(Leaky, v), Field(v, "level"), Field(v, "ts");
            LB.Level(if s.Some? then Some(s.value.leaky) else None, p, now)
            == Max(0, (if level.Some? then level.value else 0)
                      - Flow(Max(0, now - if ts.Some? then ts.value else now), p))
  {
    hide Scaled, Flow;
    Linear(0, Max(0, now - if Field(v, "ts").Some? then Field(v, "ts").value else now), p);
  }

  lemma CountsRead(v: Option<Value>, windowStart: int, windowMs: int)
    requires Readable(v)
    ensures var s, stored := Found(Counter, v), Field(v, "windowStart");
            var current := if Field(v, "currentCount").Some? then Field(v, "currentCount").value else 0;
            var previous := if Field(v, "previousCount").Some? then Field(v, "previousCount").value else 0;
            SC.CarryForward(if s.Some? then Some(s.value.counter) else None, windowStart, windowMs)
            == if stored == Some(windowStart) then (previous, current)
               else if stored == Some(windowStart - windowMs) then (current, 0)
               else (0, 0)
  {}

  lemma ScriptWrites(sv: Server, a: Algorithm, db: Db, key: string, p: Policy, now: int, cost: Cost)
    requires !a.Log?
    ensures var live := Live(sv, db, key, now);
            var r := Step(a, Found(a, live), p, now, cost);
            HashScript(sv, a, db, key, p, now, cost)
            == if live.Some? && !live.value.Hash? then (db, WrongType)
               else (db[key := Entry(HSet(live, Encode(r.0)), now + Ttl(a, p))], Decided(r.1))
  {}

  class RedisServer {
    var db: Db
    const server: Server

    constructor (server: Server)
      ensures db == map[] && this.server == server
    {
      this.server := server;
      db := map[];
    }

    method FixedWindowScript(key: string, limit: int, windowMs: int, capacity: int, now: int, cost: Cost)
        returns (reply: Reply)
      requires limit >= 1 && windowMs >= 1 && capacity >= 1 && Readable(Live(server, db, key, now))
      modifies this`db
      ensures (db, reply) == HashScript(server, Fixed, old(db), key, ArgvPolicy(limit, windowMs, capacity), now, cost)
    {
      hide WindowStart, HSet;
      var windowStart := WindowStart(now, windowMs);
      var raw := Live(server, db, key, now);
      ScriptWrites(server, Fixed, db, key, ArgvPolicy(limit, windowMs, capacity), now, cost);
      hide HashScript, Live;
      if raw.Some? && !raw.value.Hash? {
        return WrongType;
      }
      var storedWindowStart := Field(raw, "windowStart");
      var count := if Field(raw, "count").Some? then Field(raw, "count").value else 0;
      if storedWindowStart != Some(windowStart) {
        count := 0;
      }
      var projected := count + cost;
      var allowed := projected <= limit;
      if allowed {
        count := projected;
      }
      db := db[key := Entry(HSet(raw, map["windowStart" := windowStart, "count" := count]), now + windowMs)];
      var retryAfter := 0;
      if !allowed {
        retryAfter := windowStart + windowMs - now;
      }
      reply := Decided(Decision(allowed, limit, Max(0, limit - count), retryAfter));
      assert Step(Fixed, Found(Fixed, raw), ArgvPolicy(limit, windowMs, capacity), now, cost)
          == (FixedState(FW.State(windowStart, count)), reply.decision);
    }

    method TokenBucketScript(key: string, limit: int, windowMs: int, capacity: int, now: int, cost: Cost)
        returns (reply: Reply)
      requires limit >= 1 && windowMs >= 1 && capacity >= 1 && Readable(Live(server, db, key, now))
      modifies this`db
      ensures (db, reply) == HashScript(server, Token, old(db), key, ArgvPolicy(limit, windowMs, capacity), now, cost)
    {
      hide Scaled, Flow, Whole, FlowTime;
      var p := ArgvPolicy(limit, windowMs, capacity);
      var raw := Live(server, db, key, now);
      ScriptWrites(server, Token, db, key, ArgvPolicy(limit, windowMs, capacity), now, cost);
      hide HashScript, Live;
      if raw.Some? && !raw.value.Hash? {
        return WrongType;
      }
      TokensRead(raw, p, now);
      hide Decode, HSet, TB.Available;
      var tokens, lastRefillMs := Field(raw, "tokens"), Field(raw, "ts");
      if tokens.None? {
        tokens := Some(Scaled(capacity, p));
        lastRefillMs := Some(now);
      }
      var elapsed := Max(0, now - lastRefillMs.value);
      var available := Min(Scaled(capacity, p), tokens.value + Flow(elapsed, p));
      var allowed := available >= Scaled(cost, p);
      var remainingTokens := available;
      if allowed {
        remainingTokens := available - Scaled(cost, p);
      }
      db := db[key := Entry(HSet(raw, map["tokens" := remainingTokens, "ts" := now]),
          now + (FlowTime(Scaled(capacity, p), p) + 1000))];
      var retryAfter := 0;
      if !allowed {
        retryAfter := FlowTime(Scaled(cost, p) - available, p);
      }
      reply := Decided(Decision(allowed, limit, Whole(remainingTokens, p), retryAfter));
      assert Step(Token, Found(Token, raw), ArgvPolicy(limit, windowMs, capacity), now, cost)
          == (TokenState(TB.State(remainingTokens, now)), reply.decision);
    }

    method LeakyBucketScript(key: string, limit: int, windowMs: int, capacity: int, now: int, cost: Cost)
        returns (reply: Reply)
      requires limit >= 1 && windowMs >= 1 && capacity >= 1 && Readable(Live(server, db, key, now))
      modifies this`db
      ensures (db, reply) == HashScript(server, Leaky, old(db), key, ArgvPolicy(limit, windowMs, capacity), now, cost)
    {
      hide Scaled, Flow, Whole, FlowTime;
      var p := ArgvPolicy(limit, windowMs, capacity);
      var raw := Live(server, db, key, now);
      ScriptWrites(server, Leaky, db, key, ArgvPolicy(limit, windowMs, capacity), now, cost);
      hide HashScript, Live;
      if raw.Some? && !raw.value.Hash? {
        return WrongType;
      }
      LevelRead(raw, p, now);
      hide Decode, HSet, LB.Level;
      var level := if Field(raw, "level").Some? then Field(raw, "level").value else 0;
      var lastLeakMs := if Field(raw, "ts").Some? then Field(raw, "ts").value else now;
      var elapsed := Max(0, now - lastLeakMs);
      level := Max(0, level - Flow(elapsed, p));
      var allowed := level + Scaled(cost, p) <= Scaled(capacity, p);
      if allowed {
        level := level + Scaled(cost, p);
      }
      db := db[key := Entry(HSet(raw, map["level" := level, "ts" := now]),
          now + (FlowTime(Scaled(capacity, p), p) + 1000))];
      var retryAfter := 0;
      if !allowed {
        retryAfter := FlowTime(level + Scaled(cost, p) - Scaled(capacity, p), p);
      }
      reply := Decided(Decision(allowed, limit, Max(0, Whole(Scaled(capacity, p) - level, p)), retryAfter));
      assert Step(Leaky, Found(Leaky, raw), ArgvPolicy(limit, windowMs, capacity), now, cost)
          == (LeakyState(LB.State(level, now)), reply.decision);
    }

    method SlidingWindowCounterScript(key: string, limit: int, windowMs: int, capacity: int, now: int, cost: Cost)
        returns (reply: Reply)
      requires limit >= 1 && windowMs >= 1 && capacity >= 1 && Readable(Live(server, db, key, now))
      modifies this`db
      ensures (db, reply) == HashScript(server, Counter, old(db), key, ArgvPolicy(limit, windowMs, capacity), now, cost)
    {
      hide WindowStart, Scaled, Weighted, Whole, FlowTime;
      var p := ArgvPolicy(limit, windowMs, capacity);
      var windowStart := WindowStart(now, windowMs);
      var raw := Live(server, db, key, now);
      ScriptWrites(server, Counter, db, key, ArgvPolicy(limit, windowMs, capacity), now, cost);
      hide HashScript, Live;
      if raw.Some? && !raw.value.Hash? {
        return WrongType;
      }
      CountsRead(raw, windowStart, windowMs);
      hide Decode, HSet, SC.CarryForward;
      var storedWindowStart := Field(raw, "windowStart");
      var currentCount := if Field(raw, "currentCount").Some? then Field(raw, "currentCount").value else 0;
      var previousCount := if Field(raw, "previousCount").Some? then Field(raw, "previousCount").value else 0;
      if storedWindowStart != Some(windowStart) {
        if storedWindowStart == Some(windowStart - windowMs) {
          previousCount := currentCount;
        } else {
          previousCount := 0;
        }
        currentCount := 0;
      }
      var elapsedInWindow := now - windowStart;
      var overlap := Max(0, windowMs - elapsedInWindow);
      var estimate := Weighted(previousCount, overlap) + Scaled(currentCount, p);
      var allowed := estimate + Scaled(cost, p) <= Scaled(limit, p);
      Linear(currentCount, cost, p);
      if allowed {
        currentCount := currentCount + cost;
        estimate := Weighted(previousCount, overlap) + Scaled(currentCount, p);
      }
      db := db[key := Entry(HSet(raw, map["windowStart" := windowStart, "currentCount" := currentCount,
          "previousCount" := previousCount]), now + 2 * windowMs)];
      var retryAfter := 0;
      if !allowed {
        retryAfter := FlowTime(estimate + Scaled(cost, p) - Scaled(limit, p), p);
      }
      reply := Decided(Decision(allowed, limit, Max(0, Whole(Scaled(limit, p) - estimate, p)), retryAfter));
      assert Step(Counter, Found(Counter, raw), ArgvPolicy(limit, windowMs, capacity), now, cost)
          == (CounterState(SC.State(windowStart, previousCount, currentCount)), reply.decision);
    }

    method SlidingWindowLogScript(key: string, limit: int, windowMs: int, capacity: int, now: int, cost: Cost)
        returns (reply: Reply)
      requires limit >= 1 && windowMs >= 1 && capacity >= 1
      modifies this`db
      ensures (db, reply) == LogScript(server, old(db), key, ArgvPolicy(limit, windowMs, capacity), now, cost)
    {
      hide Pruned, ZAdd;
      var raw := Live(server, db, key, now);
      if raw.Some? && !raw.value.ZSet? {
        return WrongType;
      }
      var windowStart := now - windowMs;
      var entries := if raw.Some? then Pruned(raw.value.members, windowStart) else [];
      db := WithMembers(db, key, entries);
      var currentCount := 0;
      var oldestTs := None;
      for i := 0 to |entries|
        invariant currentCount == Weight(entries[..i])
        invariant oldestTs == if i == 0 then None else Some(entries[0].score)
      {
        assert Front(entries[..i + 1]) == entries[..i];
        currentCount := currentCount + entries[i].cost;
        if oldestTs.None? {
          oldestTs := Some(entries[i].score);
        }
      }
      assert entries[..|entries|] == entries;
      var allowed := currentCount + cost <= limit;
      if allowed {
        var seqNo := Live(server, db, SeqKey(key), now);
        if seqNo.Some? && !seqNo.value.Number? {
          return WrongType;
        }
        var n := (if seqNo.Some? then seqNo.value.n else 0) + 1;
        db := db[SeqKey(key) := Entry(Number(n), now + windowMs)];
        db := db[key := Entry(ZSet(ZAdd(server, entries, Member(now, cost, n))), now + windowMs)];
        currentCount := currentCount + cost;
      }
      var retryAfter := 0;
      if !allowed {
        retryAfter := (if oldestTs.Some? then oldestTs.value else now) + windowMs - now;
      }
      reply := Decided(Decision(allowed, limit, Max(0, limit - currentCount), retryAfter));
    }

    /** createRedisStore(algorithm).consume */
    method ConsumeCall(algorithm: Algorithm, key: string, policy: Policy, now: int, cost: Cost) returns (reply: Reply)
      requires Readable(Live(server, db, key, now))
      modifies this`db
      ensures (db, reply) == RedisStep(server, map[key := Setting(algorithm, policy)], old(db), Consume(key, now, cost))
    {
      hide Step, Ttl, Pruned, ZAdd, Weight;
      var capacity := Capacity(policy);
      var live := Live(server, db, key, now);
      CapacityIsEnough(algorithm, Found(algorithm, live), policy, now, cost);
      CapacityIsEnough(algorithm, None, policy, now, cost);
      match algorithm {
        case Fixed => reply := FixedWindowScript(key, policy.limit, policy.windowMs, capacity, now, cost);
        case Token => reply := TokenBucketScript(key, policy.limit, policy.windowMs, capacity, now, cost);
        case Leaky => reply := LeakyBucketScript(key, policy.limit, policy.windowMs, capacity, now, cost);
        case Log => reply := SlidingWindowLogScript(key, policy.limit, policy.windowMs, capacity, now, cost);
        case Counter => reply := SlidingWindowCounterScript(key, policy.limit, policy.windowMs, capacity, now, cost);
      }
    }

    method ResetKey(algorithm: Algorithm, key: string)
      modifies this`db
      ensures db == RedisStep(server, map[key := Setting(algorithm, PolicyData(1, 1, None))], old(db), Reset(key)).0
      ensures db == old(db) - if algorithm.Log? then {key, key + ":seq"} else {key}
    {
      if algorithm == Log {
        db := db - {key, SeqKey(key)};
      } else {
        db := db - {key};
      }
    }
  }
}
