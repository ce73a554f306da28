/**
 The connection cap of one route: the check in proxyWebSocket and the
 registration in acceptClient are separated by an await, so handshakes overlap.
 */
module Capacity {
  import opened Common
  import opened Bridging
  import opened BridgeProofs

  datatype Tracked = Tracked(id: nat, routeId: string)

  /** The registry (packages/gateway/src/websocket/registry.ts). */
  class Registry {
    var connections: set<Tracked>

    constructor ()
      ensures connections == {}
    {
      connections := {};
    }

    method Add(c: Tracked)
      modifies this
      ensures connections == old(connections) + {c}
    {
      connections := connections + {c};
    }

    method Remove(c: Tracked)
      modifies this
      ensures connections == old(connections) - {c}
    {
      connections := connections - {c};
    }

    method CountFor(routeId: string) returns (n: nat)
      ensures n == |set c | c in connections && c.routeId == routeId|
    {
      n := 0;
      var rest := connections;
      ghost var counted: set<Tracked> := {};
      while rest != {}
        invariant rest <= connections
        invariant counted == set c | c in connections - rest && c.routeId == routeId
        invariant n == |counted|
        decreases rest
      {
        var c :| c in rest;
        rest := rest - {c};
        if c.routeId == routeId {
          n := n + 1;
          counted := counted + {c};
        }
        assert counted == set x | x in connections - rest && x.routeId == routeId;
      }
      assert counted == set c | c in connections && c.routeId == routeId;
    }
  }

  // ------------------------------------------------------- one route's hub

  /** All bridges ever opened on the route, and the handshakes past the check but not yet registered. */
  datatype Hub = Hub(bridges: seq<Bridge>, pending: nat, peak: nat)

  datatype Move =
    | CapacityCheck
    | HandshakeEnds
    | Register(early: seq<Message>, earlyClosed: Option<int>, now: int)
    | BridgeEvent(index: nat, event: Event)

  const EMPTY := Hub([], 0, 0)

  function Registered(bridges: seq<Bridge>): nat {
    if |bridges| == 0 then 0 else Registered(Front(bridges)) + (if Last(bridges).life.registered then 1 else 0)
  }

  function Gauge(bridges: seq<Bridge>): int {
    if |bridges| == 0 then 0 else Gauge(Front(bridges)) + Last(bridges).life.gauge
  }

  function Moved(cfg: BridgeConfig, max: nat, h: Hub, m: Move): Hub {
    match m
    case CapacityCheck =>
      if Registered(h.bridges) >= max then h
      else h.(pending := h.pending + 1, peak := if h.pending + 1 > h.peak then h.pending + 1 else h.peak)
    case HandshakeEnds =>
      if h.pending == 0 then h else h.(pending := h.pending - 1)
    case Register(early, earlyClosed, now) =>
      if h.pending == 0 then h
      else h.(pending := h.pending - 1, bridges := h.bridges + [Opened(early, earlyClosed, now)])
    case BridgeEvent(i, e) =>
      if i >= |h.bridges| then h else h.(bridges := h.bridges[i := Step(cfg, h.bridges[i], e)])
  }

  function MovedBy(cfg: BridgeConfig, max: nat, h: Hub, moves: seq<Move>): Hub {
    if |moves| == 0 then h else Moved(cfg, max, MovedBy(cfg, max, h, Front(moves)), Last(moves))
  }

  ghost predicate AllOk(bridges: seq<Bridge>) {
    forall i :: 0 <= i < |bridges| ==> BridgeOk(bridges[i])
  }

  lemma {:induction false} CountUpdated(bridges: seq<Bridge>, i: nat, b: Bridge)
    requires i < |bridges|
    ensures Registered(bridges[i := b]) == Registered(bridges)
                                           - (if bridges[i].life.registered then 1 else 0) + (if b.life.registered
                                               then 1 else 0)
    ensures Gauge(bridges[i := b]) == Gauge(bridges) - bridges[i].life.gauge + b.life.gauge
  {
    if i < |bridges| - 1 {
      CountUpdated(Front(bridges), i, b);
      assert Front(bridges[i := b]) == Front(bridges)[i := b];
    } else {
      assert Front(bridges[i := b]) == Front(bridges);
    }
  }

  lemma HubStep(cfg: BridgeConfig, max: nat, h: Hub, m: Move)
    requires AllOk(h.bridges) && h.pending <= h.peak && Registered(h.bridges) + h.pending <= max - 1 + h.peak
        && Gauge(h.bridges) == Registered(h.bridges)
    ensures var h' := Moved(cfg, max, h, m);
            && AllOk(h'.bridges) && h'.pending <= h'.peak && h'.peak >= h.peak
            && Registered(h'.bridges) + h'.pending <= max - 1 + h'.peak && Gauge(h'.bridges) == Registered(h'.bridges)
  {
    hide BridgeOk, Step;
    match m {
      case Register(early, earlyClosed, now) =>
        OpenedOk(early, earlyClosed, now);
        assert Front(h.bridges + [Opened(early, earlyClosed, now)]) == h.bridges;
      case BridgeEvent(i, e) =>
        if i < |h.bridges| {
          StepOk(cfg, h.bridges[i], e);
          NeverReregistered(cfg, h.bridges[i], e);
          CountUpdated(h.bridges, i, Step(cfg, h.bridges[i], e));
        }
      case _ =>
    }
  }

  lemma NeverReregistered(cfg: BridgeConfig, b: Bridge, e: Event)
    requires BridgeOk(b)
    ensures Step(cfg, b, e).life.registered ==> b.life.registered
    ensures Step(cfg, b, e).life.gauge == (if Step(cfg, b, e).life.registered then 1 else 0)
        && b.life.gauge == (if b.life.registered then 1 else 0)
  {
    hide Step, Counted, EndsOk;
    StepOk(cfg, b, e);
  }

  /**
   Connection cap, on every interleaving of checks, failed handshakes,
   registrations and bridge events: the open bridges never exceed
   maxConnections - 1 + P, P the peak number of handshakes past the check but
   not yet registered. So the cap is exact when handshakes do not overlap; and
   the gauge always equals the registry's count.
   */
  lemma {:induction false} ConnectionCap(cfg: BridgeConfig, max: nat, moves: seq<Move>)
    requires max >= 1
    ensures var h := MovedBy(cfg, max, EMPTY, moves);
            && AllOk(h.bridges) && h.pending <= h.peak
            && Registered(h.bridges) + h.pending <= max - 1 + h.peak
            && (h.peak <= 1 ==> Registered(h.bridges) <= max)
            && Gauge(h.bridges) == Registered(h.bridges)
  {
    hide BridgeOk, Moved;
    if |moves| > 0 {
      ConnectionCap(cfg, max, Front(moves));
      HubStep(cfg, max, MovedBy(cfg, max, EMPTY, Front(moves)), Last(moves));
    }
  }

  /** n bridges, opened one after another or all at once. */
  function Sequential(n: nat): seq<Move> {
    if n == 0 then [] else Sequential(n - 1) + [CapacityCheck] + [Register([], None, 0)]
  }

  function Checks(n: nat): seq<Move> {
    if n == 0 then [] else Checks(n - 1) + [CapacityCheck]
  }

  function Registers(n: nat): seq<Move> {
    if n == 0 then [] else Registers(n - 1) + [Register([], None, 0)]
  }

  lemma {:induction false} MovedByAppend(cfg: BridgeConfig, max: nat, h: Hub, a: seq<Move>, b: seq<Move>)
    ensures MovedBy(cfg, max, h, a + b) == MovedBy(cfg, max, MovedBy(cfg, max, h, a), b)
  {
    hide Moved;
    if |b| == 0 {
      assert a + b == a;
    } else {
      assert Front(a + b) == a + Front(b);
      MovedByAppend(cfg, max, h, a, Front(b));
    }
  }

  lemma OneRegisters(cfg: BridgeConfig, max: nat, h: Hub)
    requires h.pending > 0
    ensures var h' := Moved(cfg, max, h, Register([], None, 0));
            Registered(h'.bridges) == Registered(h.bridges) + 1 && h'.pending == h.pending - 1 && h'.peak == h.peak
  {
    assert Front(h.bridges + [Opened([], None, 0)]) == h.bridges;
  }

  lemma OneCheckPasses(cfg: BridgeConfig, max: nat, h: Hub)
    requires Registered(h.bridges) < max && h.pending == 0 && h.peak <= 1
    ensures Moved(cfg, max, h, CapacityCheck) == h.(pending := 1, peak := 1)
  {}

  lemma {:induction false} SequentialFills(cfg: BridgeConfig, max: nat, n: nat)
    requires n <= max
    ensures var h := MovedBy(cfg, max, EMPTY, Sequential(n));
            Registered(h.bridges) == n && h.pending == 0 && h.peak == if n == 0 then 0 else 1
  {
    hide Registered, Moved;
    if n == 0 {
      assert Registered([]) == 0 by { NoneRegistered(); }
    } else {
      SequentialFills(cfg, max, n - 1);
      var a := Sequential(n - 1);
      assert Front(Sequential(n)) == a + [CapacityCheck] && Front(a + [CapacityCheck]) == a;
      var h := MovedBy(cfg, max, EMPTY, a);
      OneCheckPasses(cfg, max, h);
      OneRegisters(cfg, max, Moved(cfg, max, h, CapacityCheck));
    }
  }

  lemma NoneRegistered()
    ensures Registered([]) == 0
  {}

  lemma {:induction false} ChecksPass(cfg: BridgeConfig, max: nat, h: Hub, n: nat)
    requires Registered(h.bridges) < max && h.pending == 0 && h.peak <= 1
    ensures var h' := MovedBy(cfg, max, h, Checks(n));
            h'.bridges == h.bridges && h'.pending == n && h'.peak == if n > h.peak then n else h.peak
  {
    if n > 0 {
      ChecksPass(cfg, max, h, n - 1);
      assert Front(Checks(n)) == Checks(n - 1);
    }
  }

  lemma {:induction false} RegistersAll(cfg: BridgeConfig, max: nat, h: Hub, n: nat)
    requires h.pending >= n
    ensures var h' := MovedBy(cfg, max, h, Registers(n));
            Registered(h'.bridges) == Registered(h.bridges) + n && h'.pending == h.pending - n && h'.peak == h.peak
  {
    hide Registered, Moved;
    if n > 0 {
      RegistersAll(cfg, max, h, n - 1);
      assert Front(Registers(n)) == Registers(n - 1);
      OneRegisters(cfg, max, MovedBy(cfg, max, h, Registers(n - 1)));
    }
  }

  /** The bound is sharp: for every cap and every overlap P >= 1 some run reaches maxConnections - 1 + P exactly. */
  lemma CapIsSharp(cfg: BridgeConfig, max: nat, p: nat)
    requires max >= 1 && p >= 1
    ensures var h := MovedBy(cfg, max, EMPTY, Sequential(max - 1) + Checks(p) + Registers(p));
            h.peak == p && Registered(h.bridges) == max - 1 + p
  {
    hide Moved;
    SequentialFills(cfg, max, max - 1);
    var h1 := MovedBy(cfg, max, EMPTY, Sequential(max - 1));
    ChecksPass(cfg, max, h1, p);
    MovedByAppend(cfg, max, EMPTY, Sequential(max - 1), Checks(p));
    RegistersAll(cfg, max, MovedBy(cfg, max, h1, Checks(p)), p);
    MovedByAppend(cfg, max, EMPTY, Sequential(max - 1) + Checks(p), Registers(p));
  }
}
