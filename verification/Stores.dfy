/**
 The two rate-limit stores as machines over the same events: the in-process
 store, which never forgets, and the Redis store, whose keys expire.
 */
module Stores {
  import opened Common
  import opened RateLimitTypes
  import opened Runs
  import FW = FixedWindow
  import TB = TokenBucket
  import LB = LeakyBucket
  import SC = SlidingWindowCounter

  /** The algorithm and policy of one key; the same on every call for that key. */
  datatype Setting = Setting(algorithm: Algorithm, policy: Policy)
  type Config = map<string, Setting>

  datatype Event = Consume(key: string, now: int, cost: Cost) | Reset(key: string)

  datatype Reply = Decided(decision: Decision) | Done | WrongType

  // ------------------------------------------------------- in-process store

  type Memory = map<string, State>

  function Lookup(mem: Memory, a: Algorithm, key: string): (s: Option<State>)
    ensures s.Some? ==> Fits(a, s.value)
  {
    if key in mem && Fits(a, mem[key]) then Some(mem[key]) else None
  }

  function MemoryStep(conf: Config, mem: Memory, e: Event): (Memory, Reply)
    requires e.key in conf
  {
    match e
    case Consume(key, now, cost) =>
      var r := Step(conf[key].algorithm, Lookup(mem, conf[key].algorithm, key), conf[key].policy, now, cost);
      (mem[key := r.0], Decided(r.1))
    case Reset(key) => (mem - {key}, Done)
  }

  class MemoryStore {
    const algorithm: Algorithm
    var state: map<string, State>

    ghost predicate Valid()
      reads this
    {
      forall k :: k in state ==> Fits(algorithm, state[k])
    }

    constructor (algorithm: Algorithm)
      ensures this.algorithm == algorithm && state == map[] && Valid()
    {
      this.algorithm := algorithm;
      state := map[];
    }

    method ConsumeCall(key: string, policy: Policy, now: int, cost: Cost) returns (result: Decision)
      requires Valid()
      modifies this
      ensures Valid()
      ensures (state, Decided(result)) == MemoryStep(map[key := Setting(algorithm, policy)], old(state),
          Consume(key, now, cost))
    {
      var previous := if key in state then Some(state[key]) else None;
      var r := Step(algorithm, previous, policy, now, cost);
      state := state[key := r.0];
      result := r.1;
    }

    method ResetKey(key: string)
      requires Valid()
      modifies this
      ensures Valid()
      ensures state == MemoryStep(map[key := Setting(algorithm, PolicyData(1, 1, None))], old(state), Reset(key)).0
      ensures state == old(state) - {key}
    {
      state := state - {key};
    }

    method Close()
      modifies this
      ensures Valid() && state == map[]
    {
      state := map[];
    }
  }

  // ------------------------------------------------------------ Redis store

  /** A zset member "<timestamp>:<cost>:<seq>", with the timestamp as its score. */
  datatype Member = Member(score: int, cost: Cost, seqNo: int)

  datatype Value = Hash(fields: map<string, int>) | ZSet(members: seq<Member>) | Number(n: int)
  datatype Entry = Entry(value: Value, deadline: int)
  type Db = map<string, Entry>

  /**
   What the scripts may not rely on: whether a key is still readable at the very
   millisecond it expires, and the order of members whose scores are equal.
   */
  datatype Server = Server(keepsAtDeadline: bool, tie: (Member, Member) -> bool)

  function Live(sv: Server, db: Db, key: string, now: int): Option<Value> {
    if key in db && (now < db[key].deadline || (sv.keepsAtDeadline && now == db[key].deadline))
    then Some(db[key].value) else None
  }

  function SeqKey(key: string): string { key + ":seq" }

  /** PEXPIRE of the four hash scripts. */
  function Ttl(a: Algorithm, p: Policy): int {
    match a
    case Counter => 2 * p.windowMs
    case Token => FlowTime(Scaled(Capacity(p), p), p) + 1000
    case Leaky => FlowTime(Scaled(Capacity(p), p), p) + 1000
    case _ => p.windowMs
  }

  function Encode(s: State): map<string, int>
    requires !s.LogState?
  {
    match s
    case FixedState(f) => map["windowStart" := f.windowStart, "count" := f.count]
    case TokenState(t) => map["tokens" := t.tokens, "ts" := t.lastRefillMs]
    case LeakyState(l) => map["level" := l.level, "ts" := l.lastLeakMs]
    case CounterState(c) =>
      map["windowStart" := c.windowStart, "currentCount" := c.currentCount, "previousCount" := c.previousCount]
  }

  /** Fields as the hash scripts leave them, whichever of the scripts have written to the hash. */
  predicate Shaped(f: map<string, int>) {
    && ("tokens" in f || "level" in f ==> "ts" in f)
    && ("currentCount" in f <==> "previousCount" in f) && ("currentCount" in f ==> "windowStart" in f)
  }

  /** The key holds nothing, a value of another type, or such a hash. */
  predicate Readable(v: Option<Value>) {
    v.Some? && v.value.Hash? ==> Shaped(v.value.fields)
  }

  /** HSET: the named fields are set, the others stay. */
  function HSet(live: Option<Value>, fields: map<string, int>): Value {
    Hash((if live.Some? && live.value.Hash? then live.value.fields else map[]) + fields)
  }

  function Decode(a: Algorithm, f: map<string, int>): (s: Option<State>)
    ensures s.Some? ==> Fits(a, s.value)
    ensures forall st :: Fits(a, st) && !st.LogState? && f == Encode(st) ==> s == Some(st)
  {
    match a
    case Fixed =>
      if "windowStart" in f && "count" in f then Some(FixedState(FW.State(f["windowStart"], f["count"]))) else None
    case Token =>
      if "tokens" in f && "ts" in f then Some(TokenState(TB.State(f["tokens"], f["ts"]))) else None
    case Leaky =>
      if "level" in f && "ts" in f then Some(LeakyState(LB.State(f["level"], f["ts"]))) else None
    case Counter =>
      if "windowStart" in f && "currentCount" in f && "previousCount" in f
      then Some(CounterState(SC.State(f["windowStart"], f["previousCount"], f["currentCount"]))) else None
    case Log => None
  }

  /** A hash script: the in-process algorithm on the live fields, written back with a fresh expiry. */
  function HashScript(sv: Server, a: Algorithm, db: Db, key: string, p: Policy, now: int, cost: Cost): (Db, Reply)
    requires a != Log
  {
    var live := Live(sv, db, key, now);
    if live.Some? && !live.value.Hash? then (db, WrongType)
    else
      var r := Step(a, if live.Some? then Decode(a, live.value.fields) else None, p, now, cost);
      (db[key := Entry(HSet(live, Encode(r.0)), now + Ttl(a, p))], Decided(r.1))
  }

  /** ZREMRANGEBYSCORE key -inf lo. */
  function Pruned(z: seq<Member>, lo: int): seq<Member> {
    if |z| == 0 then []
    else if Last(z).score > lo then Pruned(Front(z), lo) + [Last(z)] else Pruned(Front(z), lo)
  }

  function Weight(z: seq<Member>): int {
    if |z| == 0 then 0 else Weight(Front(z)) + Last(z).cost
  }

  /** ZADD: a member already present is not added again; otherwise it goes in by score, then tie order. */
  function ZAdd(sv: Server, z: seq<Member>, m: Member): seq<Member> {
    if m in z then z else Inserted(sv, z, m)
  }

  function Inserted(sv: Server, z: seq<Member>, m: Member): seq<Member> {
    if |z| == 0 then [m]
    else if z[0].score < m.score || (z[0].score == m.score && sv.tie(z[0], m)) then [z[0]] + Inserted(sv, z[1..], m)
    else [m] + z
  }

  /** An emptied zset is a deleted key; so is an expired one that has been looked up. */
  function WithMembers(db: Db, key: string, z: seq<Member>): Db {
    if |z| == 0 || key !in db then db - {key} else db[key := db[key].(value := ZSet(z))]
  }

  function LogScript(sv: Server, db: Db, key: string, p: Policy, now: int, cost: Cost): (Db, Reply) {
    var live := Live(sv, db, key, now);
    if live.Some? && !live.value.ZSet? then (db, WrongType)
    else
      var z := if live.Some? then Pruned(live.value.members, now - p.windowMs) else [];
      var db1 := WithMembers(db, key, z);
      var count := Weight(z);
      if count + cost > p.limit then
        (db1, Decided(Decision(false, p.limit, Max(0, p.limit - count),
            (if |z| > 0 then z[0].score else now) + p.windowMs - now)))
      else
        var counter := Live(sv, db1, SeqKey(key), now);
        if counter.Some? && !counter.value.Number? then (db1, WrongType)
        else
          var n := (if counter.Some? then counter.value.n else 0) + 1;
          var db2 := db1[SeqKey(key) := Entry(Number(n), now + p.windowMs)];
          (db2[key := Entry(ZSet(ZAdd(sv, z, Member(now, cost, n))), now + p.windowMs)],
           Decided(Decision(true, p.limit, Max(0, p.limit - (count + cost)), 0)))
  }

  function RedisStep(sv: Server, conf: Config, db: Db, e: Event): (Db, Reply)
    requires e.key in conf
  {
    match e
    case Consume(key, now, cost) =>
      if conf[key].algorithm.Log? then LogScript(sv, db, key, conf[key].policy, now, cost)
      else HashScript(sv, conf[key].algorithm, db, key, conf[key].policy, now, cost)
    case Reset(key) =>
      (if conf[key].algorithm.Log? then db - {key, SeqKey(key)} else db - {key}, Done)
  }

  // -------------------------------------------------------------------- runs

  ghost predicate Known(conf: Config, events: seq<Event>) {
    forall e :: e in events ==> e.key in conf
  }

  /** The clock never steps back from one consume to a later one. */
  ghost predicate Clocked(events: seq<Event>) {
    forall i, j :: 0 <= i < j < |events| && events[i].Consume? && events[j].Consume? ==> events[i].now <= events[j].now
  }

  ghost function MemoryAfter(conf: Config, events: seq<Event>): Memory
    requires Known(conf, events)
  {
    if |events| == 0 then map[] else MemoryStep(conf, MemoryAfter(conf, Front(events)), Last(events)).0
  }

  ghost function RedisAfter(sv: Server, conf: Config, events: seq<Event>): Db
    requires Known(conf, events)
  {
    if |events| == 0 then map[] else RedisStep(sv, conf, RedisAfter(sv, conf, Front(events)), Last(events)).0
  }
}
