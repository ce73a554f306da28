/** What a connection's message limit keeps, on every order of events. */
module BridgeLimits {
  import opened Common
  import RateLimitTypes
  import Runs
  import Buckets
  import FixedBounds
  import SlidingCounter
  import SlidingLog
  import Stores
  import opened Bridging

  /** The calls whose message went out, and the one that is on its way. */
  function Passed(b: Bridge): seq<RateLimitTypes.Call> {
    b.meter.relayed
    + if b.traffic.head.Consuming? && b.traffic.head.allowed then [RateLimitTypes.Call(b.traffic.head.chargedAt, 1)]
        else []
  }

  /**
   The connection's limiter is one key run through the store's algorithm, and
   only admitted messages go out.
   */
  ghost predicate MeterOk(cfg: BridgeConfig, b: Bridge)
    requires cfg.limiter.Some?
  {
    var s, m := cfg.limiter.value, b.meter;
    && m.state == Runs.After(s.algorithm, s.policy, m.consumed)
    && |m.relayed| == |b.traffic.toUpstream|
    && forall lo, hi ::
        Runs.CostIn(Passed(b), lo, hi) <= Runs.CostIn(Runs.Admitted(s.algorithm, s.policy, m.consumed), lo, hi)
  }

  lemma MeteredStep(cfg: BridgeConfig, b: Bridge, now: int)
    requires cfg.limiter.Some? && MeterOk(cfg, b) && b.traffic.head.Waiting?
    ensures var s, (meter, allowed), sent := cfg.limiter.value, Metered(cfg, b.meter, now),
        b.meter.relayed + [RateLimitTypes.Call(now, 1)];
            && meter.state == Runs.After(s.algorithm, s.policy, meter.consumed) && meter.relayed == b.meter.relayed
            && (forall lo, hi ::
                Runs.CostIn(meter.relayed, lo, hi)
                <= Runs.CostIn(Runs.Admitted(s.algorithm, s.policy, meter.consumed), lo, hi))
            && (allowed ==> forall lo, hi ::
                Runs.CostIn(sent, lo, hi) <= Runs.CostIn(Runs.Admitted(s.algorithm, s.policy, meter.consumed), lo, hi))
  {
    hide Runs.Step, Runs.Admitted, Runs.CostIn;
    var s, c := cfg.limiter.value, RateLimitTypes.Call(now, 1);
    assert Passed(b) == b.meter.relayed;
    Runs.Snoc(s.algorithm, s.policy, b.meter.consumed, c);
    forall lo, hi
      ensures Runs.CostIn(b.meter.relayed + [c], lo, hi)
          == Runs.CostIn(b.meter.relayed, lo, hi) + (if lo < now <= hi then 1 else 0)
    {
      OneMore(b.meter.relayed, c, lo, hi);
    }
    forall lo, hi
      ensures Runs.CostIn(Runs.Admitted(s.algorithm, s.policy, b.meter.consumed + [c]), lo, hi)
              == Runs.CostIn(Runs.Admitted(s.algorithm, s.policy, b.meter.consumed), lo, hi)
                 + (if Runs.Decide(s.algorithm, s.policy, b.meter.consumed, c).allowed && lo < now <= hi then 1 else 0)
    {
      var h := Runs.Admitted(s.algorithm, s.policy, b.meter.consumed);
      OneMore(h, c, lo, hi);
      assert h + [] == h;
    }
  }

  lemma OneMore(h: seq<RateLimitTypes.Call>, c: RateLimitTypes.Call, lo: int, hi: int)
    ensures Runs.CostIn(h + [c], lo, hi) == Runs.CostIn(h, lo, hi) + (if lo < c.now <= hi then c.cost else 0)
  {
    assert Front(h + [c]) == h;
  }

  lemma ChainStartMetered(cfg: BridgeConfig, b: Bridge, now: int)
    requires cfg.limiter.Some? && MeterOk(cfg, b) && b.traffic.head.Waiting? && |b.traffic.chain| > 0
    ensures MeterOk(cfg, OnChainStart(cfg, b, now))
  {
    hide Metered, Runs.Admitted, Runs.CostIn, Runs.After;
    MeteredStep(cfg, b, now);
    var b' := OnChainStart(cfg, b, now);
    assert b'.meter.relayed + [] == b'.meter.relayed;
  }

  lemma DroppedCostsLess(h: seq<RateLimitTypes.Call>, c: RateLimitTypes.Call)
    ensures forall lo, hi :: Runs.CostIn(h, lo, hi) <= Runs.CostIn(h + [c], lo, hi)
  {
    hide Runs.CostIn;
    forall lo, hi ensures Runs.CostIn(h, lo, hi) <= Runs.CostIn(h + [c], lo, hi) {
      OneMore(h, c, lo, hi);
    }
  }

  lemma ChainDecideMetered(cfg: BridgeConfig, b: Bridge, pending: nat, now: int)
    requires cfg.limiter.Some? && MeterOk(cfg, b) && b.traffic.head.Consuming?
    ensures MeterOk(cfg, OnChainDecide(cfg, b, pending, now))
  {
    hide BeginClose, CloseClient, CloseUpstream, Runs.Admitted, Runs.CostIn, Runs.After;
    var b' := OnChainDecide(cfg, b, pending, now);
    DroppedCostsLess(b.meter.relayed, RateLimitTypes.Call(b.traffic.head.chargedAt, 1));
    assert b.meter.relayed + [] == b.meter.relayed;
    assert Passed(b') == b'.meter.relayed;
    assert b'.meter.relayed == Passed(b) || b'.meter.relayed == b.meter.relayed;
  }

  lemma {:induction false} EarlyRelayUnmetered(cfg: BridgeConfig, b: Bridge, early: seq<Message>, buffered: seq<nat>,
      now: int)
    requires |buffered| >= |early|
    ensures RelayEarly(cfg, b, early, buffered, now).meter == b.meter
    ensures RelayEarly(cfg, b, early, buffered, now).traffic.toUpstream == b.traffic.toUpstream
    ensures RelayEarly(cfg, b, early, buffered, now).traffic.head == b.traffic.head
    decreases |early|
  {
    hide BeginClose, CloseClient, CloseUpstream;
    if |early| > 0 {
      EarlyRelayUnmetered(cfg, RelayToClient(cfg, b, early[0], buffered[0], now), early[1..], buffered[1..], now);
    }
  }

  lemma StepMetered(cfg: BridgeConfig, b: Bridge, e: Event)
    requires cfg.limiter.Some? && MeterOk(cfg, b)
    ensures MeterOk(cfg, Step(cfg, b, e))
  {
    hide OnChainDecide, OnChainStart, MeterOk, RelayEarly, BeginClose, OnSideClosed, CloseClient, CloseUpstream,
        RelayCloseToClient, RelayCloseToUpstream;
    if Enabled(cfg, b, e) && e.ChainDecide? {
      ChainDecideMetered(cfg, b, e.pending, e.now);
    } else if Enabled(cfg, b, e) && e.ChainStart? {
      ChainStartMetered(cfg, b, e.now);
    } else {
      if Enabled(cfg, b, e) && e.Accepted? {
        var b0 := b.(ends := b.ends.(client := Some(OPEN)), traffic := b.traffic.(early := []));
        EarlyRelayUnmetered(cfg, b0, b.traffic.early, e.buffered, e.now);
      }
      UnmeteredKeeps(cfg, b, Step(cfg, b, e));
    }
  }

  lemma UnmeteredKeeps(cfg: BridgeConfig, b: Bridge, b': Bridge)
    requires cfg.limiter.Some? && MeterOk(cfg, b)
    requires b'.meter == b.meter && b'.traffic.toUpstream == b.traffic.toUpstream && b'.traffic.head == b.traffic.head
    ensures MeterOk(cfg, b')
  {
  }

  lemma {:induction false} RunMetered(cfg: BridgeConfig, early: seq<Message>, earlyClosed: Option<int>, start: int,
      events: seq<Event>)
    requires cfg.limiter.Some?
    ensures MeterOk(cfg, After(cfg, Opened(early, earlyClosed, start), events))
  {
    hide Step;
    if |events| > 0 {
      hide MeterOk, Opened;
      RunMetered(cfg, early, earlyClosed, start, Front(events));
      StepMetered(cfg, After(cfg, Opened(early, earlyClosed, start), Front(events)), Last(events));
    }
  }

  // ------------------------------------------------------------ rate bounds

  function Time(e: Event): Option<int> {
    match e
    case Accepted(_, now) => Some(now)
    case UpstreamMessage(_, _, now) => Some(now)
    case ClientMessage(_, _, now) => Some(now)
    case ChainStart(now) => Some(now)
    case ChainDecide(_, now) => Some(now)
    case IdleTick(now) => Some(now)
    case _ => None
  }

  /** The clock never steps back from one event to a later one. */
  predicate Clocked(events: seq<Event>) {
    forall i, j :: 0 <= i < j < |events| && Time(events[i]).Some? && Time(events[j]).Some?
                   ==> Time(events[i]).value <= Time(events[j]).value
  }

  /** The limiter is charged when a chain link starts, and never else. */
  lemma StepCharges(cfg: BridgeConfig, b: Bridge, e: Event)
    ensures Step(cfg, b, e).meter.consumed == b.meter.consumed
            || (e.ChainStart? && Step(cfg, b, e).meter.consumed == b.meter.consumed + [RateLimitTypes.Call(e.now, 1)])
  {
    hide RelayEarly, BeginClose, OnSideClosed, CloseClient, CloseUpstream, RelayCloseToClient, RelayCloseToUpstream;
    if Enabled(cfg, b, e) && e.Accepted? {
      var b0 := b.(ends := b.ends.(client := Some(OPEN)), traffic := b.traffic.(early := []));
      EarlyRelayUnmetered(cfg, b0, b.traffic.early, e.buffered, e.now);
    }
  }

  lemma {:induction false} ChargedInOrder(cfg: BridgeConfig, b: Bridge, events: seq<Event>)
    requires Clocked(events) && b.meter.consumed == []
    ensures var consumed := After(cfg, b, events).meter.consumed;
            && Runs.InOrder(consumed)
            && forall c :: c in consumed ==> exists i :: 0 <= i < |events| && Time(events[i]) == Some(c.now)
  {
    hide Step;
    if |events| > 0 {
      var front, e := Front(events), Last(events);
      ChargedInOrder(cfg, b, front);
      StepCharges(cfg, After(cfg, b, front), e);
      var consumed := After(cfg, b, front).meter.consumed;
      assert events[|events| - 1] == e;
      forall c | c in consumed ensures exists i :: 0 <= i < |events| - 1 && Time(events[i]) == Some(c.now) {
        var i :| 0 <= i < |front| && Time(front[i]) == Some(c.now);
        assert events[i] == front[i];
      }
      assert forall k :: 0 <= k < |consumed| ==> consumed[k] in consumed;
    }
  }

  /** How much of a cost in (lo, hi] and in [t1, t2] a limiter's algorithm lets through. */
  ghost predicate WithinLimit(s: Stores.Setting, sent: seq<RateLimitTypes.Call>, t1: int, t2: int) {
    var p, trailing := s.policy, Runs.CostIn(sent, t2 - s.policy.windowMs, t2);
    match s.algorithm
    case Fixed => trailing <= 2 * p.limit
    case Log => trailing <= p.limit
    case Counter => trailing < 2 * p.limit
    case _ =>
      RateLimitTypes.Scaled(Runs.CostIn(sent, t1 - 1, t2), p)
      <= RateLimitTypes.Scaled(RateLimitTypes.Capacity(p), p) + RateLimitTypes.Flow(t2 - t1, p)
  }

  lemma RunsWithinLimit(s: Stores.Setting, calls: seq<RateLimitTypes.Call>, t1: int, t2: int)
    requires Runs.InOrder(calls) && t1 <= t2
    ensures WithinLimit(s, Runs.Admitted(s.algorithm, s.policy, calls), t1, t2)
  {
    hide Runs.Admitted, Runs.CostIn, RateLimitTypes.Scaled, RateLimitTypes.Flow;
    match s.algorithm {
      case Fixed => FixedBounds.FixedTrailingBound(s.policy, calls, t2);
      case Token => Buckets.TokenEnvelope(s.policy, calls, t1, t2);
      case Leaky => Buckets.LeakyEnvelope(s.policy, calls, t1, t2);
      case Log => SlidingLog.LogWindowBound(s.policy, calls, t2);
      case Counter => SlidingCounter.TrailingWindowBelowTwiceLimit(s.policy, calls, t2);
    }
  }

  /**
   Whatever the message limit's algorithm, on every order of clocked events: each
   message passed on to the upstream is one the limiter admitted, and over any
   interval [t1, t2], or the window trailing t2, those admitted then keep the
   algorithm's own bound.
   */
  lemma MessageRateEnvelope(cfg: BridgeConfig, early: seq<Message>, earlyClosed: Option<int>, start: int,
      events: seq<Event>, t1: int, t2: int)
    requires cfg.limiter.Some? && t1 <= t2 && Clocked(events)
    ensures var b := After(cfg, Opened(early, earlyClosed, start), events);
            |b.meter.relayed| == |b.traffic.toUpstream| && WithinLimit(cfg.limiter.value, b.meter.relayed, t1, t2)
  {
    hide Step, Runs.Admitted, Runs.CostIn, Runs.InOrder, RateLimitTypes.Scaled, RateLimitTypes.Flow;
    var s := cfg.limiter.value;
    RunMetered(cfg, early, earlyClosed, start, events);
    ChargedInOrder(cfg, Opened(early, earlyClosed, start), events);
    var b := After(cfg, Opened(early, earlyClosed, start), events);
    RunsWithinLimit(s, b.meter.consumed, t1, t2);
    RelayedCostsLess(cfg, b, t1 - 1, t2);
    RelayedCostsLess(cfg, b, t2 - s.policy.windowMs, t2);
    RateLimitTypes.Linear(
      Runs.CostIn(b.meter.relayed, t1 - 1, t2),
          Runs.CostIn(Runs.Admitted(s.algorithm, s.policy, b.meter.consumed), t1 - 1, t2), s.policy);
  }

  lemma RelayedCostsLess(cfg: BridgeConfig, b: Bridge, lo: int, hi: int)
    requires cfg.limiter.Some? && MeterOk(cfg, b)
    ensures var s := cfg.limiter.value;
            Runs.CostIn(b.meter.relayed, lo, hi) <= Runs.CostIn(Runs.Admitted(s.algorithm, s.policy,
                b.meter.consumed), lo, hi)
  {
    hide Runs.CostIn, Runs.Admitted;
    if b.traffic.head.Consuming? && b.traffic.head.allowed {
      DroppedCostsLess(b.meter.relayed, RateLimitTypes.Call(b.traffic.head.chargedAt, 1));
    } else {
      assert b.meter.relayed + [] == b.meter.relayed;
    }
  }
}
