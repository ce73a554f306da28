/** Key expiry is unobservable: the Redis store answers every run as the never-expiring store does. */
module StoreRefinement {
  import opened Common
  import opened RateLimitTypes
  import opened Runs
  import opened Stores
  import SlidingLog
  import SL = SlidingWindowLog
  import FW = FixedWindow
  import TB = TokenBucket
  import LB = LeakyBucket
  import SC = SlidingWindowCounter

  // ---------------------------------------------- the four hash algorithms

  /** A state as its algorithm leaves it after a call at time w. */
  ghost predicate WrittenAt(a: Algorithm, p: Policy, s: State, w: int) {
    match s
    case FixedState(f) => a.Fixed? && f.windowStart == WindowStart(w, p.windowMs)
    case TokenState(t) => a.Token? && t.lastRefillMs == w && 0 <= t.tokens
    case LeakyState(l) => a.Leaky? && l.lastLeakMs == w && l.level <= Scaled(Capacity(p), p)
    case CounterState(c) => a.Counter? && c.windowStart == WindowStart(w, p.windowMs)
    case LogState(_) => false
  }

  lemma StepWrites(a: Algorithm, p: Policy, s: Option<State>, w: int, now: int, cost: Cost)
    requires !a.Log? && (s.Some? ==> WrittenAt(a, p, s.value, w) && w <= now)
    ensures WrittenAt(a, p, Step(a, s, p, now, cost).0, now)
  {
    hide WindowStart, Scaled, Flow, Weighted, Whole, FlowTime, SC.Estimate, SC.CarryForward;
    Linear(0, Capacity(p), p);
    if s.Some? { Linear(0, now - w, p); } else { Linear(0, 0, p); }
  }

  /** Once its key may have expired, a state is as good as none. */
  lemma ExpiredIsForgotten(a: Algorithm, p: Policy, s: State, w: int, now: int, cost: Cost)
    requires WrittenAt(a, p, s, w) && now >= w + Ttl(a, p)
    ensures Step(a, Some(s), p, now, cost) == Step(a, None, p, now, cost)
  {
    hide WindowStart, Scaled, Flow, Weighted, Whole, FlowTime;
    Linear(0, 0, p);
    FlowTimeIsThreshold(Scaled(Capacity(p), p), now - w, p);
    FlowTimeIsThreshold(Scaled(Capacity(p), p), 0, p);
    Linear(0, Capacity(p), p);
    WindowStartBounds(w, p.windowMs);
    WindowStartBounds(now, p.windowMs);
    if w <= now { WindowStartsApart(w, now, p.windowMs); }
  }

  // --------------------------------------------------------- the log's zset

  function AsCall(m: Member): Call { Call(m.score, m.cost) }

  function AsCalls(z: seq<Member>): seq<Call> {
    seq(|z|, i requires 0 <= i < |z| => AsCall(z[i]))
  }

  /** The zset holds the same calls as the log, as often, in whatever order ties fall. */
  ghost predicate SameCalls(z: seq<Member>, s: seq<Call>) {
    multiset(AsCalls(z)) == multiset(s)
  }

  ghost predicate ByScore(z: seq<Member>) {
    forall i, j :: 0 <= i < j < |z| ==> z[i].score <= z[j].score
  }

  lemma {:induction false} PrunedIsAlive(z: seq<Member>, lo: int)
    ensures AsCalls(Pruned(z, lo)) == SL.Alive(AsCalls(z), lo)
  {
    if |z| > 0 {
      PrunedIsAlive(Front(z), lo);
      assert Front(AsCalls(z)) == AsCalls(Front(z));
      var rest := Pruned(Front(z), lo);
      assert AsCalls(rest + [Last(z)]) == AsCalls(rest) + [AsCall(Last(z))];
    }
  }

  /** Sorted entries: those at or before lo come first. */
  lemma {:induction false} Boundary(z: seq<Member>, lo: int) returns (k: nat)
    requires ByScore(z)
    ensures k <= |z|
    ensures forall i :: 0 <= i < k ==> z[i].score <= lo
    ensures forall i :: k <= i < |z| ==> z[i].score > lo
  {
    k := 0;
    while k < |z| && z[k].score <= lo
      invariant k <= |z| && forall i :: 0 <= i < k ==> z[i].score <= lo
    {
      k := k + 1;
    }
    assert k < |z| ==> forall i :: k < i < |z| ==> z[k].score <= z[i].score;
  }

  lemma {:induction false} PrunedAt(z: seq<Member>, lo: int, k: nat)
    requires k <= |z| && (forall i :: 0 <= i < k ==> z[i].score <= lo) && forall i :: k <= i < |z| ==> z[i].score > lo
    ensures Pruned(z, lo) == z[k..]
  {
    if |z| > 0 {
      assert Last(z) == z[|z| - 1];
      if k == |z| {
        PrunedAt(Front(z), lo, k - 1);
      } else {
        PrunedAt(Front(z), lo, k);
        assert z[k..] == Front(z)[k..] + [Last(z)];
      }
    }
  }

  lemma PrunedIsSuffix(z: seq<Member>, lo: int)
    requires ByScore(z)
    ensures |Pruned(z, lo)| <= |z| && Pruned(z, lo) == z[|z| - |Pruned(z, lo)|..]
    ensures forall i :: 0 <= i < |z| - |Pruned(z, lo)| ==> z[i].score <= lo
    ensures forall i :: |z| - |Pruned(z, lo)| <= i < |z| ==> z[i].score > lo
  {
    hide Pruned;
    var k := Boundary(z, lo);
    PrunedAt(z, lo, k);
  }

  lemma PrunedMembers(z: seq<Member>, lo: int)
    requires ByScore(z)
    ensures forall m :: m in Pruned(z, lo) ==> m in z && m.score > lo
    ensures ByScore(Pruned(z, lo))
  {
    hide Pruned;
    PrunedIsSuffix(z, lo);
  }

  lemma {:induction false} WeightIsTotal(z: seq<Member>)
    ensures Weight(z) == SL.TotalCost(AsCalls(z))
  {
    if |z| > 0 {
      WeightIsTotal(Front(z));
      assert Front(AsCalls(z)) == AsCalls(Front(z));
    }
  }

  lemma {:induction false} AliveCount(s: seq<Call>, lo: int, c: Call)
    ensures multiset(SL.Alive(s, lo))[c] == if c.now > lo then multiset(s)[c] else 0
  {
    if |s| > 0 {
      AliveCount(Front(s), lo, c);
      assert s == Front(s) + [Last(s)];
    }
  }

  lemma {:induction false} TotalWithout(s: seq<Call>, j: nat)
    requires j < |s|
    ensures SL.TotalCost(s) == SL.TotalCost(s[..j] + s[j + 1..]) + s[j].cost
  {
    var t := s[..j] + s[j + 1..];
    if j < |s| - 1 {
      TotalWithout(Front(s), j);
      assert Front(t) == Front(s)[..j] + Front(s)[j + 1..] && Last(t) == Last(s);
    } else {
      assert t == Front(s);
    }
  }

  lemma ContentsWithout(s: seq<Call>, j: nat)
    requires j < |s|
    ensures multiset(s[..j] + s[j + 1..]) == multiset(s) - multiset{s[j]}
  {
    assert s == s[..j] + ([s[j]] + s[j + 1..]);
  }

  /** The total does not depend on the order of the entries. */
  lemma {:induction false} TotalByContents(s: seq<Call>, t: seq<Call>)
    requires multiset(s) == multiset(t)
    ensures SL.TotalCost(s) == SL.TotalCost(t)
  {
    assert |multiset(s)| == |s| && |multiset(t)| == |t|;
    if |s| > 0 {
      var i := |s| - 1;
      assert s[i] in multiset(t);
      var j :| 0 <= j < |t| && t[j] == s[i];
      ContentsWithout(s, i);
      ContentsWithout(t, j);
      TotalByContents(s[..i] + s[i + 1..], t[..j] + t[j + 1..]);
      TotalWithout(s, i);
      TotalWithout(t, j);
    }
  }

  /** Two sorted sequences with the same contents start at the same time. */
  lemma FirstByContents(z: seq<Member>, s: seq<Call>)
    requires SameCalls(z, s) && ByScore(z) && InOrder(s) && |z| > 0
    ensures |s| > 0 && s[0].now == z[0].score
  {
    var c := AsCalls(z);
    assert c[0] in multiset(s);
    assert s[0] in multiset(c);
    var i :| 0 <= i < |s| && s[i] == c[0];
    var j :| 0 <= j < |c| && c[j] == s[0];
    assert z[0].score <= z[j].score && s[0].now <= s[i].now;
  }

  lemma {:induction false} InsertedAt(sv: Server, z: seq<Member>, m: Member) returns (k: nat)
    ensures k <= |z| && Inserted(sv, z, m) == z[..k] + [m] + z[k..]
  {
    if |z| > 0 && (z[0].score < m.score || (z[0].score == m.score && sv.tie(z[0], m))) {
      var k' := InsertedAt(sv, z[1..], m);
      k := k' + 1;
      assert z[1..][..k'] == z[1..k] && z[1..][k'..] == z[k..];
      assert z[..k] == [z[0]] + z[1..k];
    } else {
      k := 0;
    }
  }

  lemma {:induction false} InsertedSorted(sv: Server, z: seq<Member>, m: Member)
    requires ByScore(z)
    ensures ByScore(Inserted(sv, z, m))
    ensures forall x :: x in Inserted(sv, z, m) <==> x in z || x == m
  {
    if |z| > 0 && (z[0].score < m.score || (z[0].score == m.score && sv.tie(z[0], m))) {
      var rest := Inserted(sv, z[1..], m);
      InsertedSorted(sv, z[1..], m);
      assert z == [z[0]] + z[1..];
      assert forall i :: 0 <= i < |rest| ==> rest[i] in rest && (rest[i] == m || rest[i] in z[1..]);
    }
  }

  lemma InsertedContents(sv: Server, z: seq<Member>, m: Member, s: seq<Call>)
    requires ByScore(z) && SameCalls(z, s)
    ensures SameCalls(Inserted(sv, z, m), s + [AsCall(m)]) && ByScore(Inserted(sv, z, m))
    ensures forall x :: x in Inserted(sv, z, m) <==> x in z || x == m
  {
    hide ByScore, Inserted;
    var k := InsertedAt(sv, z, m);
    var z' := Inserted(sv, z, m);
    assert z == z[..k] + z[k..];
    assert AsCalls(z) == AsCalls(z[..k]) + AsCalls(z[k..]);
    assert AsCalls(z') == AsCalls(z[..k]) + [AsCall(m)] + AsCalls(z[k..]);
    InsertedSorted(sv, z, m);
  }

  // -------------------------------------------------------- the simulation

  function Entries(mem: Memory, k: string): seq<Call> {
    if k in mem && mem[k].LogState? then mem[k].log.entries else []
  }

  function Members(db: Db, k: string): seq<Member> {
    if k in db && db[k].value.ZSet? then db[k].value.members else []
  }

  ghost predicate HashSim(a: Algorithm, p: Policy, k: string, mem: Memory, db: Db, t: int) {
    && (k in mem <==> k in db)
    && (k in mem ==>
          var w := db[k].deadline - Ttl(a, p);
          w <= t && WrittenAt(a, p, mem[k], w) && db[k].value == Hash(Encode(mem[k])))
  }

  ghost predicate LogSim(p: Policy, k: string, mem: Memory, db: Db, t: int) {
    && (k in mem ==> mem[k].LogState?)
    && (k in db ==> db[k].value.ZSet?)
    && (SeqKey(k) in db ==> db[SeqKey(k)].value.Number?)
    && InOrder(Entries(mem, k)) && (forall c :: c in Entries(mem, k) ==> c.now <= t)
    && ByScore(Members(db, k)) && SameCalls(Members(db, k), Entries(mem, k))
    && forall m :: m in Members(db, k) ==> Guarded(p, k, db, m)
  }

  /** While a member can still matter, its zset and the sequence counter above it are both alive. */
  ghost predicate Guarded(p: Policy, k: string, db: Db, m: Member) {
    && k in db && m.score + p.windowMs <= db[k].deadline
    && SeqKey(k) in db && m.score + p.windowMs <= db[SeqKey(k)].deadline
    && db[SeqKey(k)].value.Number? && m.seqNo <= db[SeqKey(k)].value.n
  }

  ghost predicate KeySim(s: Setting, k: string, mem: Memory, db: Db, t: int) {
    if s.algorithm.Log? then LogSim(s.policy, k, mem, db, t) else HashSim(s.algorithm, s.policy, k, mem, db, t)
  }

  lemma EncodeReplaces(a: Algorithm, s: State, s': State)
    requires !a.Log? && Fits(a, s) && Fits(a, s')
    ensures Encode(s) + Encode(s') == Encode(s')
  {}

  lemma HashStep(sv: Server, a: Algorithm, p: Policy, k: string, mem: Memory, db: Db, t: int, now: int, cost: Cost)
    requires !a.Log? && HashSim(a, p, k, mem, db, t) && t <= now
    ensures var r, m := HashScript(sv, a, db, k, p, now, cost), Step(a, Lookup(mem, a, k), p, now, cost);
            r.1 == Decided(m.1) && HashSim(a, p, k, mem[k := m.0], r.0, now)
  {
    hide Step, Ttl, Encode, Decode;
    var s := Lookup(mem, a, k);
    if s.Some? {
      var w := db[k].deadline - Ttl(a, p);
      StepWrites(a, p, s, w, now, cost);
      EncodeReplaces(a, s.value, Step(a, s, p, now, cost).0);
      if Live(sv, db, k, now).None? { ExpiredIsForgotten(a, p, s.value, w, now, cost); }
    } else {
      StepWrites(a, p, None, now, now, cost);
    }
  }

  /** Pruning the zset and pruning the log leave the same calls. */
  lemma PruningAgrees(all: seq<Member>, entries: seq<Call>, lo: int)
    requires SameCalls(all, entries) && ByScore(all) && InOrder(entries)
    ensures var z, alive := Pruned(all, lo), SL.Alive(entries, lo);
            && SameCalls(z, alive) && ByScore(z) && InOrder(alive)
            && (forall m :: m in z ==> m in all && m.score > lo) && (forall c :: c in alive ==> c in entries)
  {
    hide Pruned, SL.Alive;
    PrunedMembers(all, lo);
    PrunedIsAlive(all, lo);
    SlidingLogSuffix(entries, lo);
    forall c: Call
      ensures multiset(SL.Alive(AsCalls(all), lo))[c] == multiset(SL.Alive(entries, lo))[c]
    {
      AliveCount(AsCalls(all), lo, c);
      AliveCount(entries, lo, c);
    }
  }

  /** The script reads the same total and the same oldest entry. */
  lemma SameReading(z: seq<Member>, alive: seq<Call>)
    requires SameCalls(z, alive) && ByScore(z) && InOrder(alive)
    ensures Weight(z) == SL.TotalCost(alive) && (|z| > 0 <==> |alive| > 0) && (|z| > 0 ==> alive[0].now == z[0].score)
  {
    hide SL.TotalCost, Weight;
    WeightIsTotal(z);
    TotalByContents(AsCalls(z), alive);
    assert |multiset(AsCalls(z))| == |z| && |multiset(alive)| == |alive|;
    if |z| > 0 { FirstByContents(z, alive); }
  }

  /** z, with the log's live entries, is what a call at `now` works on. */
  ghost predicate Found(p: Policy, k: string, mem: Memory, db: Db, t: int, now: int, z: seq<Member>) {
    var alive := SL.Alive(Entries(mem, k), now - p.windowMs);
    && SameCalls(z, alive) && ByScore(z) && InOrder(alive) && (forall c :: c in alive ==> c.now <= t)
    && (forall m :: m in z ==> Guarded(p, k, db, m) && now - p.windowMs < m.score)
  }

  /** What the log script finds after pruning, expired key or not. */
  lemma LogFinds(sv: Server, p: Policy, k: string, mem: Memory, db: Db, t: int, now: int)
    requires LogSim(p, k, mem, db, t) && t <= now
    ensures var live, lo := Live(sv, db, k, now), now - p.windowMs;
            var z := if live.Some? && live.value.ZSet? then Pruned(live.value.members, lo) else [];
            Found(p, k, mem, db, t, now, z)
  {
    hide Pruned, SL.Alive, SameCalls, ByScore, InOrder;
    var lo, all, entries := now - p.windowMs, Members(db, k), Entries(mem, k);
    PruningAgrees(all, entries, lo);
    var z := Pruned(all, lo);
    assert |z| == 0 || z[0] in z;
    if k !in db { NothingPruned(lo); }
    if k in db && Live(sv, db, k, now).None? {
      forall m | m in all
        ensures m.score <= lo
      {
        assert Guarded(p, k, db, m);
      }
    }
  }

  lemma NothingPruned(lo: int)
    ensures Pruned([], lo) == []
  {
  }

  lemma SlidingLogSuffix(h: seq<Call>, lo: int)
    requires InOrder(h)
    ensures InOrder(SL.Alive(h, lo)) && forall c :: c in SL.Alive(h, lo) ==> c in h
  {
    hide SL.Alive;
    SlidingLog.AliveIsSuffix(h, lo);
  }

  lemma FoundScores(p: Policy, k: string, mem: Memory, db: Db, t: int, now: int, z: seq<Member>)
    requires Found(p, k, mem, db, t, now, z)
    ensures forall m :: m in z ==> m.score <= t
  {
    var alive := SL.Alive(Entries(mem, k), now - p.windowMs);
    forall m | m in z
      ensures m.score <= t
    {
      var i :| 0 <= i < |z| && z[i] == m;
      assert AsCalls(z)[i] in multiset(alive);
      assert AsCall(m) in alive;
    }
  }

  lemma RefusalKeepsSim(p: Policy, k: string, mem: Memory, db: Db, t: int, now: int, z: seq<Member>)
    requires LogSim(p, k, mem, db, t) && t <= now && Found(p, k, mem, db, t, now, z)
    ensures var alive := SL.Alive(Entries(mem, k), now - p.windowMs);
            LogSim(p, k, mem[k := LogState(SL.State(alive))], WithMembers(db, k, z), now)
  {
    hide SL.Alive;
    FoundScores(p, k, mem, db, t, now, z);
    if |z| == 0 {
      assert z == [];
    } else {
      assert z[0] in z;
    }
    var db' := WithMembers(db, k, z);
    assert SeqKey(k) != k;
    assert Members(db', k) == z;
    forall m | m in z
      ensures Guarded(p, k, db', m)
    {
      assert Guarded(p, k, db, m);
    }
  }

  /** The sequence number makes the new member distinct from every live one, though the counter itself expires. */
  lemma NewMemberIsFresh(sv: Server, p: Policy, k: string, mem: Memory, db: Db, t: int, now: int, z: seq<Member>,
      cost: Cost)
    requires LogSim(p, k, mem, db, t) && t <= now && Found(p, k, mem, db, t, now, z)
    ensures var counter := Live(sv, WithMembers(db, k, z), SeqKey(k), now);
            && (counter.Some? ==> counter.value.Number?)
            && var n := (if counter.Some? then counter.value.n else 0) + 1;
            Member(now, cost, n) !in z && forall m :: m in z ==> m.seqNo < n
  {
    hide SL.Alive, SameCalls, InOrder, ByScore;
    assert SeqKey(k) != k;
    forall m | m in z
      ensures Live(sv, WithMembers(db, k, z), SeqKey(k), now).Some? && m.seqNo <= db[SeqKey(k)].value.n
    {
      assert Guarded(p, k, db, m);
    }
  }

  lemma AdmissionKeepsSim(sv: Server, p: Policy, k: string, mem: Memory, db: Db, t: int, now: int, z: seq<Member>,
      cost: Cost, n: int)
    requires LogSim(p, k, mem, db, t) && t <= now && Found(p, k, mem, db, t, now, z)
    requires Member(now, cost, n) !in z && forall m :: m in z ==> m.seqNo < n
    ensures var alive := SL.Alive(Entries(mem, k), now - p.windowMs);
            var db' := WithMembers(db, k, z)[SeqKey(k) := Entry(Number(n), now + p.windowMs)]
                                           [k := Entry(ZSet(ZAdd(sv, z, Member(now, cost, n))), now + p.windowMs)];
            LogSim(p, k, mem[k := LogState(SL.State(alive + [Call(now, cost)]))], db', now)
  {
    hide SL.Alive, SameCalls, Inserted;
    FoundScores(p, k, mem, db, t, now, z);
    assert SeqKey(k) != k;
    var alive, member := SL.Alive(Entries(mem, k), now - p.windowMs), Member(now, cost, n);
    InsertedContents(sv, z, member, alive);
  }

  lemma FoundReading(p: Policy, k: string, mem: Memory, db: Db, t: int, now: int, z: seq<Member>)
    requires Found(p, k, mem, db, t, now, z)
    ensures var alive := SL.Alive(Entries(mem, k), now - p.windowMs);
            Weight(z) == SL.TotalCost(alive) && (|z| > 0 <==> |alive| > 0) && (|z| > 0 ==> alive[0].now == z[0].score)
  {
    hide SL.Alive, SL.TotalCost, Weight, SameCalls, ByScore;
    SameReading(z, SL.Alive(Entries(mem, k), now - p.windowMs));
  }

  /** The log script answers as the in-process log does; its next database is spelled out. */
  lemma LogReply(sv: Server, p: Policy, k: string, mem: Memory, db: Db, t: int, now: int, cost: Cost, z: seq<Member>)
    requires LogSim(p, k, mem, db, t) && t <= now && Found(p, k, mem, db, t, now, z)
    requires var live := Live(sv, db, k, now);
             z == if live.Some? && live.value.ZSet? then Pruned(live.value.members, now - p.windowMs) else []
    ensures var r, m := LogScript(sv, db, k, p, now, cost), Step(Log, Lookup(mem, Log, k), p, now, cost);
            var alive, counter := SL.Alive(Entries(mem, k), now - p.windowMs),
                Live(sv, WithMembers(db, k, z), SeqKey(k), now);
            var n := (if counter.Some? && counter.value.Number? then counter.value.n else 0) + 1;
            && r.1 == Decided(m.1)
            && m.0 == LogState(SL.State(if m.1.allowed then alive + [Call(now, cost)] else alive))
            && r.0 == if m.1.allowed
                      then WithMembers(db, k, z)[SeqKey(k) := Entry(Number(n), now + p.windowMs)]
                                                [k := Entry(ZSet(ZAdd(sv, z, Member(now, cost, n))), now + p.windowMs)]
                      else WithMembers(db, k, z)
  {
    hide Pruned, SL.Alive, SL.TotalCost, Weight, ZAdd, Found, SameCalls, ByScore, InOrder, Guarded, WithMembers;
    FoundReading(p, k, mem, db, t, now, z);
    NewMemberIsFresh(sv, p, k, mem, db, t, now, z, cost);
  }

  lemma LogStep(sv: Server, p: Policy, k: string, mem: Memory, db: Db, t: int, now: int, cost: Cost)
    requires LogSim(p, k, mem, db, t) && t <= now
    ensures var r, m := LogScript(sv, db, k, p, now, cost), Step(Log, Lookup(mem, Log, k), p, now, cost);
            r.1 == Decided(m.1) && LogSim(p, k, mem[k := m.0], r.0, now)
  {
    hide LogScript, Step, Pruned, SL.Alive, Found, LogSim, ZAdd, WithMembers;
    LogFinds(sv, p, k, mem, db, t, now);
    var live := Live(sv, db, k, now);
    var z := if live.Some? && live.value.ZSet? then Pruned(live.value.members, now - p.windowMs) else [];
    LogReply(sv, p, k, mem, db, t, now, cost, z);
    RefusalKeepsSim(p, k, mem, db, t, now, z);
    NewMemberIsFresh(sv, p, k, mem, db, t, now, z, cost);
    var counter := Live(sv, WithMembers(db, k, z), SeqKey(k), now);
    AdmissionKeepsSim(sv, p, k, mem, db, t, now, z, cost, (if counter.Some? then counter.value.n else 0) + 1);
  }

  // ------------------------------------------------------------ whole stores

  /** No key is another log key's sequence counter. */
  ghost predicate SeqKeysApart(conf: Config) {
    forall k :: k in conf && conf[k].algorithm.Log? ==> SeqKey(k) !in conf
  }

  ghost predicate Sim(conf: Config, mem: Memory, db: Db, t: int) {
    forall k :: k in conf ==> KeySim(conf[k], k, mem, db, t)
  }

  lemma SeqKeyInjective(j: string, k: string)
    requires SeqKey(j) == SeqKey(k)
    ensures j == k
  {
    assert SeqKey(j)[..|j|] == j && SeqKey(k)[..|k|] == k;
  }

  /** A step on one key leaves every other key's part of both stores alone. */
  lemma OtherKeysKept(sv: Server, conf: Config, mem: Memory, db: Db, t: int, t': int, e: Event, j: string)
    requires SeqKeysApart(conf) && e.key in conf && j in conf && j != e.key && t <= t'
    requires KeySim(conf[j], j, mem, db, t)
    ensures KeySim(conf[j], j, MemoryStep(conf, mem, e).0, RedisStep(sv, conf, db, e).0, t')
  {
    hide Step, Pruned, Weight, ZAdd, Ttl, Encode, Decode, WrittenAt, InOrder, ByScore, SameCalls;
    if SeqKey(j) == SeqKey(e.key) { SeqKeyInjective(j, e.key); }
    var mem', db' := MemoryStep(conf, mem, e).0, RedisStep(sv, conf, db, e).0;
    assert j in mem' <==> j in mem;
    assert j in mem ==> mem'[j] == mem[j];
    assert j in db' <==> j in db;
    assert j in db ==> db'[j] == db[j];
    if conf[j].algorithm.Log? {
      assert SeqKey(j) != e.key;
      assert SeqKey(j) in db' <==> SeqKey(j) in db;
      assert SeqKey(j) in db ==> db'[SeqKey(j)] == db[SeqKey(j)];
      assert Members(db', j) == Members(db, j) && Entries(mem', j) == Entries(mem, j);
      forall m | m in Members(db', j)
        ensures Guarded(conf[j].policy, j, db', m)
      {
        assert Guarded(conf[j].policy, j, db, m);
      }
    }
  }

  lemma StoreStep(sv: Server, conf: Config, mem: Memory, db: Db, t: int, e: Event)
    requires SeqKeysApart(conf) && e.key in conf && Sim(conf, mem, db, t) && (e.Consume? ==> t <= e.now)
    ensures MemoryStep(conf, mem, e).1 == RedisStep(sv, conf, db, e).1
    ensures Sim(conf, MemoryStep(conf, mem, e).0, RedisStep(sv, conf, db, e).0, if e.Consume? then e.now else t)
  {
    hide Step, KeySim, HashScript, LogScript;
    var s, t' := conf[e.key], if e.Consume? then e.now else t;
    forall j | j in conf && j != e.key
      ensures KeySim(conf[j], j, MemoryStep(conf, mem, e).0, RedisStep(sv, conf, db, e).0, t')
    {
      assert KeySim(conf[j], j, mem, db, t);
      OtherKeysKept(sv, conf, mem, db, t, t', e, j);
    }
    assert KeySim(s, e.key, mem, db, t);
    KeyStep(sv, conf, mem, db, t, e);
  }

  lemma KeyStep(sv: Server, conf: Config, mem: Memory, db: Db, t: int, e: Event)
    requires e.key in conf && KeySim(conf[e.key], e.key, mem, db, t) && (e.Consume? ==> t <= e.now)
    ensures MemoryStep(conf, mem, e).1 == RedisStep(sv, conf, db, e).1
    ensures KeySim(conf[e.key], e.key, MemoryStep(conf, mem, e).0, RedisStep(sv, conf, db, e).0, if e.Consume?
        then e.now else t)
  {
    hide Step, HashScript, LogScript;
    var s := conf[e.key];
    match e {
      case Consume(k, now, cost) =>
        if s.algorithm.Log? { LogStep(sv, s.policy, k, mem, db, t, now, cost); }
        else { HashStep(sv, s.algorithm, s.policy, k, mem, db, t, now, cost); }
      case Reset(k) =>
        assert SeqKey(k) != k;
    }
  }

  /** Latest consume time so far. */
  ghost function Clock(events: seq<Event>, start: int): int {
    if |events| == 0 then start
    else if Last(events).Consume? then Last(events).now
    else Clock(Front(events), start)
  }

  lemma {:induction false} ClockBound(events: seq<Event>, start: int)
    requires Clocked(events)
    ensures
      || Clock(events, start) == start
      || exists i :: 0 <= i < |events| && events[i].Consume? && events[i].now == Clock(events, start)
  {
    if |events| > 0 && !Last(events).Consume? { ClockBound(Front(events), start); }
  }

  /** Both stores stay in step along any run. */
  lemma {:induction false} RunsAgree(sv: Server, conf: Config, events: seq<Event>, start: int)
    requires SeqKeysApart(conf) && Known(conf, events) && Clocked(events)
    requires forall e :: e in events && e.Consume? ==> start <= e.now
    ensures Sim(conf, MemoryAfter(conf, events), RedisAfter(sv, conf, events), Clock(events, start))
  {
    hide Step, KeySim, MemoryStep, RedisStep;
    if |events| == 0 {
      forall k | k in conf
        ensures KeySim(conf[k], k, map[], map[], start)
      {
        FreshKey(conf[k], k, start);
      }
    } else {
      var front, e := Front(events), Last(events);
      assert e in events && forall x :: x in front ==> x in events;
      RunsAgree(sv, conf, front, start);
      ClockBound(front, start);
      StoreStep(sv, conf, MemoryAfter(conf, front), RedisAfter(sv, conf, front), Clock(front, start), e);
    }
  }

  lemma FreshKey(s: Setting, k: string, t: int)
    ensures KeySim(s, k, map[], map[], t)
  {
    assert AsCalls([]) == [];
  }

  /**
   Expiry is unobservable. On every run over any keys, algorithms and policies,
   with resets anywhere and a clock that never steps back, the next reply of the
   expiring Redis store is the reply of the store that never forgets.
   */
  lemma ExpiryIsUnobservable(sv: Server, conf: Config, events: seq<Event>, e: Event)
    requires SeqKeysApart(conf) && Known(conf, events + [e]) && Clocked(events + [e])
    ensures Known(conf, events) && e.key in conf
    ensures RedisStep(sv, conf, RedisAfter(sv, conf, events), e).1 == MemoryStep(conf, MemoryAfter(conf, events), e).1
  {
    hide Step, KeySim, MemoryStep, RedisStep, Clock;
    var all := events + [e];
    assert e in all && forall x :: x in events ==> x in all;
    var start := Earliest(all);
    assert forall i :: 0 <= i < |events| ==> events[i] == all[i];
    RunsAgree(sv, conf, events, start);
    ClockBound(events, start);
    assert all[|events|] == e;
    StoreStep(sv, conf, MemoryAfter(conf, events), RedisAfter(sv, conf, events), Clock(events, start), e);
  }

  ghost predicate AllShaped(db: Db) {
    forall k :: k in db && db[k].value.Hash? ==> Shaped(db[k].value.fields)
  }

  lemma EncodeShaped(f: map<string, int>, s: State)
    requires Shaped(f) && !s.LogState?
    ensures Shaped(f + Encode(s))
  {}

  /** What the hash scripts ask of the fields they read holds on every run, whatever keys and algorithms collide. */
  lemma {:induction false} HashesAreReadable(sv: Server, conf: Config, events: seq<Event>, key: string, now: int)
    requires Known(conf, events)
    ensures AllShaped(RedisAfter(sv, conf, events)) && Readable(Live(sv, RedisAfter(sv, conf, events), key, now))
  {
    hide Shaped, Step, Encode, Decode, Ttl, Pruned, ZAdd, Weight;
    if |events| > 0 {
      var e, front := Last(events), Front(events);
      assert e in events && forall x :: x in front ==> x in events;
      HashesAreReadable(sv, conf, front, key, now);
      if e.Consume? && !conf[e.key].algorithm.Log? {
        var db, a := RedisAfter(sv, conf, front), conf[e.key].algorithm;
        var live := Live(sv, db, e.key, e.now);
        var s := Step(a, if live.Some? && live.value.Hash? then Decode(a, live.value.fields)
            else None, conf[e.key].policy, e.now, e.cost).0;
        NothingIsShaped();
        EncodeShaped(if live.Some? && live.value.Hash? then live.value.fields else map[], s);
      }
    }
  }

  lemma NothingIsShaped()
    ensures Shaped(map[])
  {}

  ghost function Earliest(events: seq<Event>): (t: int)
    ensures forall e :: e in events && e.Consume? ==> t <= e.now
  {
    if |events| == 0 then 0
    else
      var t := Earliest(Front(events));
      assert forall e :: e in events ==> e in Front(events) || e == Last(events);
      if Last(events).Consume? then Min(t, Last(events).now) else t
  }

  /** Every admission a log key still needs is in its zset exactly once: no two ever shared a member. */
  lemma LogLosesNothing(sv: Server, conf: Config, events: seq<Event>, k: string)
    requires SeqKeysApart(conf) && Known(conf, events) && Clocked(events) && k in conf && conf[k].algorithm.Log?
    ensures SameCalls(Members(RedisAfter(sv, conf, events), k), Entries(MemoryAfter(conf, events), k))
  {
    hide Step, MemoryStep, RedisStep;
    RunsAgree(sv, conf, events, Earliest(events));
    assert KeySim(conf[k], k, MemoryAfter(conf, events), RedisAfter(sv, conf, events), Clock(events, Earliest(events)));
  }

  /**
   The proviso is exact: whenever some log key's sequence counter is itself a
   configured key, one call on that key makes the next admission on the log key
   fail, where the in-process store admits it.
   */
  lemma SeqKeyCollision(sv: Server, conf: Config, k: string)
    requires k in conf && conf[k].algorithm.Log? && k + ":seq" in conf
    ensures var events, e := [Consume(SeqKey(k), 0, 1)], Consume(k, 0, 1);
            && RedisStep(sv, conf, RedisAfter(sv, conf, events), e).1 == WrongType
            && MemoryStep(conf, MemoryAfter(conf, events), e).1.Decided?
            && MemoryStep(conf, MemoryAfter(conf, events), e).1.decision.allowed
  {
    hide Step, Encode, Decode, FlowTime, Scaled;
    var sk, other := SeqKey(k), conf[SeqKey(k)];
    var e0 := Consume(sk, 0, 1);
    assert |SeqKey(k)| == |k| + 4 && |SeqKey(sk)| == |sk| + 4;
    assert Front([e0]) == [];
    assert RedisAfter(sv, conf, [e0]) == RedisStep(sv, conf, map[], e0).0;
    assert MemoryAfter(conf, [e0]) == MemoryStep(conf, map[], e0).0;
    TtlPositive(other.algorithm, other.policy);
    FirstCallAdmitted(conf[k].policy);
    var db := RedisStep(sv, conf, map[], e0).0;
    assert k !in db && sk in db && !db[sk].value.Number? && db[sk].deadline > 0;
  }

  lemma TtlPositive(a: Algorithm, p: Policy)
    ensures Ttl(a, p) > 0
  {
    hide Scaled, Flow, FlowTime;
    Linear(0, Capacity(p), p);
    FlowTimeIsThreshold(Scaled(Capacity(p), p), -1, p);
    Linear(-1, 0, p);
  }

  lemma FirstCallAdmitted(p: Policy)
    ensures Step(Log, None, p, 0, 1).1.allowed
  {
  }
}
