/** How long the Redis store keeps a key, in the milliseconds the scripts ask for. */
module KeyExpiry {
  import opened Common
  import opened RateLimitTypes
  import opened Runs
  import opened Stores
  import opened StoreRefinement

  /**
   From a call at `now`: one window for the fixed window and the log, two for the
   counter, and for a bucket the least whole number of milliseconds that refill
   or drain it completely, and one second.
   */
  predicate LastsUntil(s: Setting, now: int, deadline: int) {
    var p := s.policy;
    match s.algorithm
    case Fixed => deadline == now + p.windowMs
    case Log => deadline == now + p.windowMs
    case Counter => deadline == now + 2 * p.windowMs
    case _ =>
      var refill, full := deadline - now - 1000, (if p.burst.Some? then p.burst.value else p.limit) * p.windowMs;
      (refill - 1) * p.limit < full <= refill * p.limit
  }

  lemma TtlLasts(s: Setting, now: int)
    ensures LastsUntil(s, now, now + Ttl(s.algorithm, s.policy))
  {
    var p := s.policy;
    var full := Scaled(Capacity(p), p);
    FlowTimeIsThreshold(full, FlowTime(full, p), p);
    FlowTimeIsThreshold(full, FlowTime(full, p) - 1, p);
    hide FlowTime;
  }

  /** The call that the key's present deadline comes from. */
  ghost predicate DatesFrom(conf: Config, events: seq<Event>, i: int, k: string, deadline: int)
    requires k in conf
  {
    0 <= i < |events| && events[i].Consume? && events[i].key == k && LastsUntil(conf[k], events[i].now, deadline)
  }

  ghost predicate Dated(conf: Config, events: seq<Event>, db: Db, k: string)
    requires k in conf
  {
    && (k in db ==> exists i :: DatesFrom(conf, events, i, k, db[k].deadline))
    && (conf[k].algorithm.Log? && k + ":seq" in db
       ==> exists i :: DatesFrom(conf, events, i, k, db[k + ":seq"].deadline))
  }

  lemma DatedGrows(conf: Config, events: seq<Event>, e: Event, k: string, deadline: int)
    requires k in conf && exists i :: DatesFrom(conf, events, i, k, deadline)
    ensures exists i :: DatesFrom(conf, events + [e], i, k, deadline)
  {
    hide LastsUntil;
    var i :| DatesFrom(conf, events, i, k, deadline);
    assert DatesFrom(conf, events + [e], i, k, deadline);
  }

  /** A step on k re-dates it from now, or leaves its dates, or deletes. */
  lemma OwnStep(sv: Server, conf: Config, db: Db, e: Event)
    requires e.key in conf
    ensures var k, db' := e.key, RedisStep(sv, conf, db, e).0;
            && (k in db' ==> (k in db && db'[k].deadline == db[k].deadline)
                             || (e.Consume? && LastsUntil(conf[k], e.now, db'[k].deadline)))
            && (conf[k].algorithm.Log? && k + ":seq" in db' ==>
                  || (k + ":seq" in db && db'[k + ":seq"] == db[k + ":seq"])
                  || (e.Consume? && LastsUntil(conf[k], e.now, db'[k + ":seq"].deadline)))
  {
    hide Step, Pruned, Weight, ZAdd, Encode, Decode, Ttl;
    var k := e.key;
    assert SeqKey(k) == k + ":seq" != k;
    if e.Consume? {
      TtlLasts(conf[k], e.now);
      if conf[k].algorithm.Log? { assert LastsUntil(conf[k], e.now, e.now + conf[k].policy.windowMs); }
    }
  }

  lemma OtherStep(sv: Server, conf: Config, db: Db, e: Event, k: string)
    requires SeqKeysApart(conf) && e.key in conf && k in conf && k != e.key
    ensures var db' := RedisStep(sv, conf, db, e).0;
            && (k in db' ==> k in db && db'[k] == db[k])
            && (conf[k].algorithm.Log? && k + ":seq" in db' ==> k + ":seq" in db && db'[k + ":seq"] == db[k + ":seq"])
  {
    hide Step, Pruned, Weight, ZAdd, Encode, Decode, Ttl;
    assert SeqKey(k) == k + ":seq";
    if SeqKey(k) == SeqKey(e.key) { SeqKeyInjective(k, e.key); }
    assert conf[k].algorithm.Log? ==> SeqKey(k) != e.key;
  }

  lemma {:induction false} KeysAreDated(sv: Server, conf: Config, events: seq<Event>, k: string)
    requires SeqKeysApart(conf) && Known(conf, events) && k in conf
    ensures Dated(conf, events, RedisAfter(sv, conf, events), k)
  {
    hide RedisStep, LastsUntil;
    if |events| > 0 {
      var front, e := Front(events), Last(events);
      assert e in events && (forall x :: x in front ==> x in events) && events == front + [e];
      KeysAreDated(sv, conf, front, k);
      var db, db', sk := RedisAfter(sv, conf, front), RedisAfter(sv, conf, events), k + ":seq";
      if e.key == k { OwnStep(sv, conf, db, e); } else { OtherStep(sv, conf, db, e, k); }
      if k in db' {
        if k in db && db'[k].deadline == db[k].deadline {
          DatedGrows(conf, front, e, k, db[k].deadline);
        } else {
          assert DatesFrom(conf, events, |front|, k, db'[k].deadline);
        }
      }
      if conf[k].algorithm.Log? && sk in db' {
        if sk in db && db'[sk] == db[sk] {
          DatedGrows(conf, front, e, k, db[sk].deadline);
        } else {
          assert DatesFrom(conf, events, |front|, k, db'[sk].deadline);
        }
      }
    }
  }

  /**
   On every run, what the store holds for a key, and a log's sequence counter,
   date from a call on that key: until its time as above is over the key answers,
   and afterwards it does not.
   */
  lemma KeysExpireOnTime(sv: Server, conf: Config, events: seq<Event>, k: string, t: int)
    requires SeqKeysApart(conf) && Known(conf, events) && k in conf
    ensures var db := RedisAfter(sv, conf, events);
            && (k in db ==> exists i :: DatesFrom(conf, events, i, k, db[k].deadline))
            && (conf[k].algorithm.Log? && k + ":seq" in db
                ==> exists i :: DatesFrom(conf, events, i, k, db[k + ":seq"].deadline))
            && (Live(sv, db, k, t).Some? ==> k in db && t <= db[k].deadline)
            && (k in db && t < db[k].deadline ==> Live(sv, db, k, t) == Some(db[k].value))
  {
    hide RedisAfter, LastsUntil, DatesFrom;
    KeysAreDated(sv, conf, events, k);
  }
}
