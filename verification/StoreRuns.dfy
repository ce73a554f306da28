/** Keys do not disturb one another: each key of either store is its own single-key run. */
module StoreRuns {
  import opened Common
  import opened RateLimitTypes
  import opened Runs
  import opened Stores
  import opened StoreRefinement

  /** The calls made on a key since it was last reset. */
  ghost function KeyCalls(events: seq<Event>, k: string): seq<Call> {
    if |events| == 0 then []
    else
      var e, earlier := Last(events), KeyCalls(Front(events), k);
      if e.key != k then earlier
      else if e.Reset? then []
      else earlier + [Call(e.now, e.cost)]
  }

  lemma {:induction false} KeyIsItsOwnRun(conf: Config, events: seq<Event>, k: string)
    requires Known(conf, events) && k in conf
    ensures Lookup(MemoryAfter(conf, events), conf[k].algorithm, k)
        == After(conf[k].algorithm, conf[k].policy, KeyCalls(events, k))
  {
    hide Step, Decide;
    if |events| > 0 {
      var e, front := Last(events), Front(events);
      assert e in events && forall x :: x in front ==> x in events;
      KeyIsItsOwnRun(conf, front, k);
      if e.key == k && e.Consume? {
        Snoc(conf[k].algorithm, conf[k].policy, KeyCalls(front, k), Call(e.now, e.cost));
      }
    }
  }

  lemma {:induction false} KeyCallsInOrder(events: seq<Event>, k: string)
    requires Clocked(events)
    ensures InOrder(KeyCalls(events, k))
    ensures forall c ::
        c in KeyCalls(events, k) ==> exists i :: 0 <= i < |events| && events[i].Consume? && events[i].now == c.now
  {
    if |events| > 0 {
      KeyCallsInOrder(Front(events), k);
      if Last(events).key == k && Last(events).Consume? {
        var earlier := KeyCalls(Front(events), k);
        assert forall i :: 0 <= i < |earlier| ==> earlier[i] in earlier;
        assert events[|events| - 1].now == Last(events).now;
      }
    }
  }

  /**
   What any gateway hears from the shared Redis store on a consume is the
   single-key decision over that key's own calls, in clock order: every bound
   and every retry promise proved for runs of one key holds for the store.
   */
  lemma RedisDecidesPerKey(sv: Server, conf: Config, events: seq<Event>, k: string, now: int, cost: Cost)
    requires SeqKeysApart(conf) && Known(conf, events + [Consume(k, now, cost)])
        && Clocked(events + [Consume(k, now, cost)])
    ensures Known(conf, events) && k in conf
    ensures InOrder(KeyCalls(events, k) + [Call(now, cost)])
    ensures RedisStep(sv, conf, RedisAfter(sv, conf, events), Consume(k, now, cost)).1
            == Decided(Decide(conf[k].algorithm, conf[k].policy, KeyCalls(events, k), Call(now, cost)))
  {
    hide Step, RedisStep, KeyCalls;
    var e := Consume(k, now, cost);
    var all := events + [e];
    ExpiryIsUnobservable(sv, conf, events, e);
    KeyIsItsOwnRun(conf, events, k);
    assert Front(all) == events && Last(all) == e;
    KeyCallsInOrder(all, k);
    KeyCallsSnoc(events, e);
  }

  lemma KeyCallsSnoc(events: seq<Event>, e: Event)
    requires e.Consume?
    ensures KeyCalls(events + [e], e.key) == KeyCalls(events, e.key) + [Call(e.now, e.cost)]
  {
    assert Front(events + [e]) == events;
  }
}
