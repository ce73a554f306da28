/** What every run of a bridge keeps. */
module BridgeProofs {
  import opened Common
  import opened Bridging

  // -------------------------------------------------------------------- ends

  ghost predicate EndsOk(e: Ends) {
    && (e.frameToClient.Some? ==> e.client.Some? && e.client.value != OPEN)
    && (e.frameToUpstream.Some? ==> e.upstream != OPEN)
    && FrameOk(e.frameToClient) && FrameOk(e.frameToUpstream)
  }

  /** A close frame carries a code that section 7.4 of RFC 6455 lets an endpoint send, or none. */
  predicate FrameOk(frame: Option<CloseFrame>) {
    frame.Some? && frame.value.WithCode? ==> IsSendableCloseCode(frame.value.code)
  }

  /** Along a run no side reopens or comes back, and a close frame, once sent, is the only one. */
  ghost predicate EndsLater(e: Ends, e': Ends) {
    && (e.client.Some? ==> e'.client.Some?)
    && (e.client.Some? && e.client.value != OPEN ==> e'.client.value != OPEN)
    && (e.upstream != OPEN ==> e'.upstream != OPEN)
    && (e.frameToClient.Some? ==> e'.frameToClient == e.frameToClient)
    && (e.frameToUpstream.Some? ==> e'.frameToUpstream == e.frameToUpstream)
  }

  /** Closing or terminating never produces the 'close' event itself. */
  ghost predicate SameClosed(e: Ends, e': Ends) {
    (e.client == Some(CLOSED) <==> e'.client == Some(CLOSED)) && (e.upstream == CLOSED <==> e'.upstream == CLOSED)
        && (e.client.None? <==> e'.client.None?)
  }

  // --------------------------------------------------------------- lifecycle

  /**
   The closing-down protocol: finish has run exactly when two sides are counted;
   it ran once, reported the first cause, left the registry and the gauge, and
   no timer survives it; a close once begun keeps the kill timer set till then.
   */
  ghost predicate LifeOk(l: Life) {
    && l.closedSides <= 2
    && (l.finished <==> l.closedSides == 2)
    && l.registered == !l.finished
    && l.gauge == (if l.finished then 0 else 1)
    && l.reports == (if l.finished then [l.firstCause] else [])
    && (l.finished ==> l.killTimer != Armed && !l.heartbeat && !l.idleTimer)
    && (l.closedSides > 0 || l.closeBegun || l.killTimer != Unset ==> l.firstCause.Some?)
    && (l.closeBegun && !l.finished ==> l.killTimer == Armed || l.killTimer == Fired)
    && (l.killTimer == Cleared ==> l.finished)
    && (l.closedSides > 0 ==> l.closeBegun || l.finished)
  }

  /** The first cause, once set, never changes; finish is never undone. */
  ghost predicate LifeLater(l: Life, l': Life) {
    && (l.firstCause.Some? ==> l'.firstCause == l.firstCause)
    && (l.finished ==> l'.finished && l'.reports == l.reports)
    && (l.closeBegun ==> l'.closeBegun)
  }

  lemma BeginCloseOk(l: Life, c: Cause)
    requires LifeOk(l)
    ensures LifeOk(BeginClose(l, c)) && LifeLater(l, BeginClose(l, c)) && BeginClose(l, c).closedSides == l.closedSides
  {
  }

  lemma SideClosedOk(l: Life, c: Cause)
    requires LifeOk(l) && l.closedSides < 2
    ensures var l' := OnSideClosed(BeginClose(l, c));
            LifeOk(l') && LifeLater(l, l') && l'.closedSides == l.closedSides + 1
  {
  }

  function Count(e: Ends): nat {
    (if e.client == Some(CLOSED) then 1 else 0) + (if e.upstream == CLOSED then 1 else 0)
  }

  /** closedSides counts the sides that have closed, once the client side exists. */
  ghost predicate Counted(b: Bridge) {
    if b.handshakeFailed then b.ends.client.None? && b.life.finished
    else if b.ends.client.None? then
      && b.life.closedSides == 0 && !b.life.heartbeat && !b.life.idleTimer
      && (b.earlyClosed.Some? <==> b.ends.upstream == CLOSED)
    else b.life.closedSides == Count(b.ends)
  }

  // -------------------------------------------------------------- invariants

  ghost predicate BridgeOk(b: Bridge) {
    LifeOk(b.life) && EndsOk(b.ends) && Counted(b)
  }

  ghost predicate BridgeLater(b: Bridge, b': Bridge) {
    LifeLater(b.life, b'.life) && EndsLater(b.ends, b'.ends)
  }

  /** What relaying one message, or closing both sides instead, can do. */
  ghost predicate OnlyRelayed(b: Bridge, b': Bridge) {
    && b' == b.(ends := b'.ends, life := b'.life, traffic := b'.traffic, lastActivity := b'.lastActivity)
    && LifeOk(b'.life) && EndsOk(b'.ends) && BridgeLater(b, b') && SameClosed(b.ends, b'.ends)
    && b'.life.closedSides == b.life.closedSides
    && b'.life.heartbeat == b.life.heartbeat && b'.life.idleTimer == b.life.idleTimer
  }

  lemma CloseBothOk(b: Bridge, code: int, cause: Cause)
    requires IsSendableCloseCode(code) && LifeOk(b.life) && EndsOk(b.ends)
    ensures var b' := CloseBoth(b, code, cause);
            OnlyRelayed(b, b') && b'.traffic == b.traffic && b'.ends.upstream != OPEN && b'.ends.client != Some(OPEN)
            && b'.life.closeBegun && b'.life.firstCause.Some?
  {
    BeginCloseOk(b.life, cause);
  }

  lemma RelayToClientOk(cfg: BridgeConfig, b: Bridge, m: Message, pending: nat, now: int)
    requires LifeOk(b.life) && EndsOk(b.ends)
    ensures OnlyRelayed(b, RelayToClient(cfg, b, m, pending, now))
  {
    hide LifeOk, CloseBoth;
    CloseBothOk(b, 1013, Backpressure);
  }

  lemma RelayToUpstreamOk(cfg: BridgeConfig, b: Bridge, m: Message, pending: nat, now: int)
    requires LifeOk(b.life) && EndsOk(b.ends)
    ensures OnlyRelayed(b, RelayToUpstream(cfg, b, m, pending, now))
  {
    hide LifeOk, CloseBoth;
    CloseBothOk(b, 1013, Backpressure);
  }

  lemma OnlyRelayedTransitive(b0: Bridge, b1: Bridge, b2: Bridge)
    requires OnlyRelayed(b0, b1) && OnlyRelayed(b1, b2)
    ensures OnlyRelayed(b0, b2)
  {
    hide LifeOk, EndsOk;
  }

  lemma {:induction false} RelayEarlyOk(cfg: BridgeConfig, b: Bridge, early: seq<Message>, buffered: seq<nat>, now: int)
    requires |buffered| >= |early| && LifeOk(b.life) && EndsOk(b.ends)
    ensures OnlyRelayed(b, RelayEarly(cfg, b, early, buffered, now))
    decreases |early|
  {
    hide LifeOk, EndsOk, RelayToClient, BridgeLater, SameClosed;
    if |early| > 0 {
      var b1 := RelayToClient(cfg, b, early[0], buffered[0], now);
      RelayToClientOk(cfg, b, early[0], buffered[0], now);
      RelayEarlyOk(cfg, b1, early[1..], buffered[1..], now);
      OnlyRelayedTransitive(b, b1, RelayEarly(cfg, b, early, buffered, now));
    } else {
      NothingRelayed(b);
    }
  }

  lemma NothingRelayed(b: Bridge)
    requires LifeOk(b.life) && EndsOk(b.ends)
    ensures OnlyRelayed(b, b)
  {
  }

  lemma CloseEventOk(b: Bridge, side: Side, code: int)
    requires BridgeOk(b) && b.ends.client.Some?
    requires if side.ClientSide? then b.ends.client.value != CLOSED else b.ends.upstream != CLOSED
    ensures var b' := if side.ClientSide? then OnClientClose(b, code) else OnUpstreamClose(b, code);
            BridgeOk(b') && BridgeLater(b, b') && b'.life.closeBegun
  {
    SideClosedOk(b.life, if side.ClientSide? then ClientClosed else UpstreamClosed);
  }

  lemma AcceptedOk(cfg: BridgeConfig, b: Bridge, buffered: seq<nat>, now: int)
    requires BridgeOk(b) && b.ends.client.None? && !b.handshakeFailed && |buffered| >= |b.traffic.early|
    ensures BridgeOk(OnAccepted(cfg, b, buffered, now)) && BridgeLater(b, OnAccepted(cfg, b, buffered, now))
  {
    hide RelayEarly, OnUpstreamClose;
    var b0 := b.(ends := b.ends.(client := Some(OPEN)), traffic := b.traffic.(early := []));
    var b1 := RelayEarly(cfg, b0, b.traffic.early, buffered, now);
    RelayEarlyOk(cfg, b0, b.traffic.early, buffered, now);
    if b.earlyClosed.Some? { EarlyCloseOk(b1, b.earlyClosed.value); }
  }

  /** The upstream's close, kept from before the hand-over, is applied after it. */
  lemma EarlyCloseOk(b: Bridge, code: int)
    requires LifeOk(b.life) && EndsOk(b.ends) && b.life.closedSides == 0 && !b.handshakeFailed
    requires b.ends.client.Some? && b.ends.client.value != CLOSED && b.ends.upstream == CLOSED
    ensures var b' := OnUpstreamClose(b, code);
            BridgeOk(b') && BridgeLater(b, b') && b'.life.closedSides == 1 && b'.ends.client.Some?
                && !b'.handshakeFailed
  {
    SideClosedOk(b.life, UpstreamClosed);
  }

  lemma HandshakeLostOk(b: Bridge)
    requires BridgeOk(b) && b.ends.client.None? && !b.handshakeFailed
    ensures BridgeOk(OnHandshakeLost(b)) && BridgeLater(b, OnHandshakeLost(b))
  {
  }

  /** Events that change neither a socket's message nor the chain's verdict. */
  lemma SocketStepOk(cfg: BridgeConfig, b: Bridge, e: Event)
    requires BridgeOk(b) && Enabled(cfg, b, e)
    requires e.PeerCloses? || e.SendFails? || e.KillTimeout? || e.TerminateCall?
    ensures BridgeOk(Step(cfg, b, e)) && BridgeLater(b, Step(cfg, b, e))
  {
  }

  lemma PlainStepOk(cfg: BridgeConfig, b: Bridge, e: Event)
    requires BridgeOk(b) && Enabled(cfg, b, e)
    requires e.ChainStart? || e.ErrorEvent? || e.Pong? || e.HeartbeatTick?
    ensures BridgeOk(Step(cfg, b, e)) && BridgeLater(b, Step(cfg, b, e))
  {
    hide Metered;
  }

  /** Every event, in whatever order, keeps the invariants. */
  lemma StepOk(cfg: BridgeConfig, b: Bridge, e: Event)
    requires BridgeOk(b)
    ensures BridgeOk(Step(cfg, b, e)) && BridgeLater(b, Step(cfg, b, e))
  {
    hide OnClientClose, OnUpstreamClose, OnAccepted, OnHandshakeLost, RelayToClient, RelayToUpstream, CloseBoth,
        Metered, OnChainDecide, OnChainStart,
      OnHeartbeatTick, TerminateBoth, LifeOk, EndsOk;
    if Enabled(cfg, b, e) {
      match e {
        case HandshakeLost => HandshakeLostOk(b);
        case Accepted(buffered, now) => AcceptedOk(cfg, b, buffered, now);
        case UpstreamMessage(m, pending, now) =>
          RelayToClientOk(cfg, b.(traffic := b.traffic.(fromUpstream := b.traffic.fromUpstream + [m])), m, pending,
              now);
        case ClientMessage(m, pending, now) =>
          RelayToUpstreamOk(cfg, b.(traffic := b.traffic.(fromClient := b.traffic.fromClient + [m])), m, pending, now);
        case ChainDecide(pending, now) => ChainDecideOk(cfg, b, pending, now);
        case CloseEvent(side, code) =>
          if b.ends.client.Some? { CloseEventOk(b, side, code); } else { EarlyCloseEventOk(b, code); }
        case IdleTick(_) => CloseBothOk(b, 1001, Idle);
        case ShutdownCall => CloseBothOk(b, 1001, Shutdown);
        case _ =>
          if e.PeerCloses? || e.SendFails? || e.KillTimeout? || e.TerminateCall? {
            SocketStepOk(cfg, b, e);
          } else {
            PlainStepOk(cfg, b, e);
          }
      }
    }
  }

  lemma EarlyCloseEventOk(b: Bridge, code: int)
    requires BridgeOk(b) && b.ends.client.None? && b.ends.upstream != CLOSED
    ensures var b' := b.(ends := b.ends.(upstream := CLOSED), earlyClosed := Some(code));
            BridgeOk(b') && BridgeLater(b, b')
  {
  }

  lemma ChainDecideOk(cfg: BridgeConfig, b: Bridge, pending: nat, now: int)
    requires BridgeOk(b) && cfg.limiter.Some? && b.traffic.head.Consuming?
    ensures BridgeOk(OnChainDecide(cfg, b, pending, now)) && BridgeLater(b, OnChainDecide(cfg, b, pending, now))
  {
    hide RelayToUpstream, CloseBoth;
    var b1 := b.(traffic := b.traffic.(head := Waiting));
    var b2 := b1.(meter := b1.meter.(relayed := b1.meter.relayed + [RateLimitTypes.Call(b.traffic.head.chargedAt, 1)]));
    CloseBothOk(b1, 1008, RateLimited);
    RelayToUpstreamOk(cfg, b1, b.traffic.head.message, pending, now);
    RelayToUpstreamOk(cfg, b2, b.traffic.head.message, pending, now);
  }

  lemma OpenedOk(early: seq<Message>, earlyClosed: Option<int>, now: int)
    ensures BridgeOk(Opened(early, earlyClosed, now))
  {
  }

  lemma {:induction false} RunOk(cfg: BridgeConfig, early: seq<Message>, earlyClosed: Option<int>, start: int,
      events: seq<Event>)
    ensures BridgeOk(After(cfg, Opened(early, earlyClosed, start), events))
  {
    hide Step, Opened, BridgeOk;
    if |events| == 0 {
      OpenedOk(early, earlyClosed, start);
    } else {
      RunOk(cfg, early, earlyClosed, start, Front(events));
      StepOk(cfg, After(cfg, Opened(early, earlyClosed, start), Front(events)), Last(events));
    }
  }

  /**
   Bridge lifecycle, on every order of events: finish has run exactly once when
   both sides have closed or the client handshake failed, and not before; it
   reported a known first cause; the registry and the gauge then hold nothing of
   this bridge, and until then one entry; no timer outlives it; and from the
   moment a close has begun until then the kill timer is set.
   */
  lemma BridgeLifecycle(cfg: BridgeConfig, early: seq<Message>, earlyClosed: Option<int>, start: int,
      events: seq<Event>)
    ensures var b := After(cfg, Opened(early, earlyClosed, start), events);
            && (b.life.finished <==> b.handshakeFailed || (b.ends.client == Some(CLOSED) && b.ends.upstream == CLOSED))
            && (b.life.finished ==> b.life.firstCause.Some? && b.life.reports == [b.life.firstCause])
            && (!b.life.finished ==> b.life.reports == [])
            && b.life.registered == !b.life.finished && b.life.gauge == (if b.life.registered then 1 else 0)
            && (b.life.finished ==> b.life.killTimer != Armed && !b.life.heartbeat && !b.life.idleTimer)
            && (b.life.closeBegun && !b.life.finished ==> b.life.killTimer == Armed || b.life.killTimer == Fired)
            && (b.ends.client.Some? && Count(b.ends) > 0 ==> b.life.closeBegun || b.life.finished)
  {
    RunOk(cfg, early, earlyClosed, start, events);
  }

  /**
   On every order of events no side ever gets a close frame with a code outside
   1000-1014 (but 1004, 1005 and 1006) and 3000-4999, whatever code the other
   side closed with; a side that has had its frame is no longer open.
   */
  lemma CloseFramesAreLawful(cfg: BridgeConfig, early: seq<Message>, earlyClosed: Option<int>, start: int,
      events: seq<Event>, code: int)
    ensures var e := After(cfg, Opened(early, earlyClosed, start), events).ends;
            && (e.frameToClient == Some(WithCode(code)) || e.frameToUpstream == Some(WithCode(code))
                ==> (1000 <= code <= 1014 && code !in {1004, 1005, 1006}) || 3000 <= code <= 4999)
            && (e.frameToClient.Some? ==> e.client != Some(OPEN)) && (e.frameToUpstream.Some? ==> e.upstream != OPEN)
  {
    hide After, Opened, LifeOk, Counted;
    RunOk(cfg, early, earlyClosed, start, events);
  }

  /** The first cause to be set is the one that stays, and the one reported. */
  lemma {:induction false} FirstCauseStays(cfg: BridgeConfig, b: Bridge, events: seq<Event>)
    requires BridgeOk(b)
    ensures BridgeOk(After(cfg, b, events)) && LifeLater(b.life, After(cfg, b, events).life)
  {
    hide Step, BridgeOk, EndsLater;
    if |events| > 0 {
      FirstCauseStays(cfg, b, Front(events));
      StepOk(cfg, After(cfg, b, Front(events)), Last(events));
    }
  }

  // ---------------------------------------------------------------- ordering

  ghost predicate IsPrefix(a: seq<Message>, b: seq<Message>) {
    |a| <= |b| && a == b[..|a|]
  }

  /** Received from the client and not yet handled by the limiter chain. */
  function Queued(t: Traffic): seq<Message> {
    (if t.head.Consuming? then [t.head.message] else []) + t.chain
  }

  /**
   Upstream to client: relayed is a prefix of received, and all of it while the
   client side is open. Before the hand-over everything is in the early buffer.
   */
  ghost predicate DownInOrder(b: Bridge) {
    && IsPrefix(b.traffic.toClient, b.traffic.fromUpstream)
    && (b.ends.client.None? ==> b.traffic.toClient == [] && b.traffic.early == b.traffic.fromUpstream)
    && (b.ends.client == Some(OPEN) ==> b.traffic.toClient == b.traffic.fromUpstream)
  }

  /**
   Client to upstream: relayed is a prefix of received; nothing but what is
   still queued is missing, unless the upstream side is closing or a first cause
   has cut the chain off.
   */
  ghost predicate UpInOrder(cfg: BridgeConfig, b: Bridge) {
    var t := b.traffic;
    && IsPrefix(t.toUpstream, t.fromClient)
    && (t.toUpstream + Queued(t) == t.fromClient || b.ends.upstream != OPEN
       || (b.life.firstCause.Some? && t.head.Waiting?))
    && (cfg.limiter.None? ==> Queued(t) == [] && (b.ends.upstream == OPEN ==> t.toUpstream == t.fromClient))
    && (b.ends.client.None? ==> t.fromClient == [] && Queued(t) == [])
  }

  lemma QuietKeepsOrder(cfg: BridgeConfig, b: Bridge, b': Bridge)
    requires DownInOrder(b) && UpInOrder(cfg, b) && b'.traffic == b.traffic && BridgeLater(b, b')
    requires b.ends.client.None? ==> b'.ends.client.None?
    ensures DownInOrder(b') && UpInOrder(cfg, b')
  {
    hide Queued, IsPrefix;
  }

  lemma {:induction false} EarlyRelayInOrder(cfg: BridgeConfig, b: Bridge, early: seq<Message>, buffered: seq<nat>,
      now: int)
    requires |buffered| >= |early| && b.ends.client.Some?
    requires IsPrefix(b.traffic.toClient, b.traffic.fromUpstream)
    requires b.ends.client == Some(OPEN) ==> b.traffic.toClient + early == b.traffic.fromUpstream
    ensures var b' := RelayEarly(cfg, b, early, buffered, now);
            && b'.traffic == b.traffic.(toClient := b'.traffic.toClient)
               && IsPrefix(b'.traffic.toClient, b.traffic.fromUpstream)
            && b'.ends.client.Some? && (b'.ends.client == Some(OPEN) ==> b'.traffic.toClient == b.traffic.fromUpstream)
    decreases |early|
  {
    hide WithCause, ArmKill;
    if |early| > 0 {
      var b1 := RelayToClient(cfg, b, early[0], buffered[0], now);
      assert b.traffic.toClient + early == (b.traffic.toClient + [early[0]]) + early[1..];
      EarlyRelayInOrder(cfg, b1, early[1..], buffered[1..], now);
    } else {
      assert b.traffic.toClient + [] == b.traffic.toClient;
    }
  }

  /** Before the client handshake is done nothing has gone upstream. */
  lemma NothingUpYet(cfg: BridgeConfig, b: Bridge)
    requires UpInOrder(cfg, b) && b.ends.client.None?
    ensures b.traffic.toUpstream == [] && b.traffic.fromClient == [] && b.traffic.chain == [] && b.traffic.head.Waiting?
  {}

  lemma NothingUpIsInOrder(cfg: BridgeConfig, b: Bridge)
    requires b.traffic.toUpstream == [] && b.traffic.fromClient == [] && b.traffic.chain == []
        && b.traffic.head.Waiting?
    ensures UpInOrder(cfg, b)
  {}

  lemma AcceptedInOrder(cfg: BridgeConfig, b: Bridge, buffered: seq<nat>, now: int)
    requires BridgeOk(b) && DownInOrder(b) && UpInOrder(cfg, b)
    requires b.ends.client.None? && !b.handshakeFailed && |buffered| >= |b.traffic.early|
    ensures var b' := OnAccepted(cfg, b, buffered, now);
            DownInOrder(b') && UpInOrder(cfg, b')
  {
    NothingUpYet(cfg, b);
    var b0 := b.(ends := b.ends.(client := Some(OPEN)), traffic := b.traffic.(early := []));
    assert b0.traffic.toClient + b.traffic.early == b0.traffic.fromUpstream && IsPrefix([], b.traffic.fromUpstream);
    hide RelayEarly, LifeOk, EndsOk, BridgeOk, BeginClose, OnSideClosed, UpInOrder, IsPrefix;
    EarlyRelayInOrder(cfg, b0, b.traffic.early, buffered, now);
    NothingUpIsInOrder(cfg, OnAccepted(cfg, b, buffered, now));
  }

  lemma UpstreamMessageInOrder(cfg: BridgeConfig, b: Bridge, m: Message, pending: nat, now: int)
    requires BridgeOk(b) && DownInOrder(b) && UpInOrder(cfg, b)
    ensures var b' := OnUpstreamMessage(cfg, b, m, pending, now);
            DownInOrder(b') && UpInOrder(cfg, b')
  {
    hide LifeOk, CloseBoth;
    var b1 := b.(traffic := b.traffic.(fromUpstream := b.traffic.fromUpstream + [m]));
    CloseBothOk(b1, 1013, Backpressure);
  }

  lemma ClientMessageInOrder(cfg: BridgeConfig, b: Bridge, m: Message, pending: nat, now: int)
    requires BridgeOk(b) && DownInOrder(b) && UpInOrder(cfg, b) && b.ends.client.Some?
    ensures var b' := OnClientMessage(cfg, b, m, pending, now);
            DownInOrder(b') && UpInOrder(cfg, b')
  {
    hide LifeOk, CloseBoth;
    var t := b.traffic;
    var b1 := b.(traffic := t.(fromClient := t.fromClient + [m]));
    CloseBothOk(b1, 1013, Backpressure);
    if cfg.limiter.Some? {
      assert Queued(t.(chain := t.chain + [m])) == Queued(t) + [m];
      assert t.toUpstream + (Queued(t) + [m]) == (t.toUpstream + Queued(t)) + [m];
    } else {
      assert t.toUpstream + [] == t.toUpstream;
      assert (t.toUpstream + [m]) + [] == t.toUpstream + [m];
    }
  }

  lemma StartKeepsQueue(t: Traffic, now: int, allowed: bool)
    requires t.head.Waiting? && |t.chain| > 0
    ensures Queued(t) != [] && Queued(t.(chain := t.chain[1..], head := Consuming(t.chain[0], now, allowed)))
        == Queued(t)
  {
    assert t.chain == [t.chain[0]] + t.chain[1..];
    assert [] + t.chain == t.chain;
  }

  lemma ChainStartInOrder(cfg: BridgeConfig, b: Bridge, now: int)
    requires DownInOrder(b) && UpInOrder(cfg, b) && cfg.limiter.Some? && b.traffic.head.Waiting?
        && |b.traffic.chain| > 0
    requires b.life.finished ==> b.life.firstCause.Some?
    ensures DownInOrder(OnChainStart(cfg, b, now)) && UpInOrder(cfg, OnChainStart(cfg, b, now))
  {
    hide IsPrefix, Queued, Metered;
    StartKeepsQueue(b.traffic, now, Metered(cfg, b.meter, now).1);
  }

  lemma ChainDecideInOrder(cfg: BridgeConfig, b: Bridge, pending: nat, now: int)
    requires BridgeOk(b) && DownInOrder(b) && UpInOrder(cfg, b) && cfg.limiter.Some? && b.traffic.head.Consuming?
    ensures var b' := OnChainDecide(cfg, b, pending, now);
            DownInOrder(b') && UpInOrder(cfg, b')
  {
    hide LifeOk, CloseBoth;
    var t, m := b.traffic, b.traffic.head.message;
    var b1 := b.(traffic := t.(head := Waiting));
    CloseBothOk(b1, 1008, RateLimited);
    CloseBothOk(b1, 1013, Backpressure);
    assert Queued(t) == [m] + t.chain && Queued(t.(head := Waiting)) == t.chain;
    assert t.toUpstream + ([m] + t.chain) == (t.toUpstream + [m]) + t.chain;
  }

  lemma StepInOrder(cfg: BridgeConfig, b: Bridge, e: Event)
    requires BridgeOk(b) && DownInOrder(b) && UpInOrder(cfg, b)
    ensures DownInOrder(Step(cfg, b, e)) && UpInOrder(cfg, Step(cfg, b, e))
  {
    hide DownInOrder, UpInOrder, OnAccepted, OnUpstreamMessage, OnClientMessage, OnChainStart, OnChainDecide,
      BeginClose, OnSideClosed, Finish, BridgeLater, EndsOk, Counted;
    StepOk(cfg, b, e);
    if Enabled(cfg, b, e) {
      match e {
        case Accepted(buffered, now) => AcceptedInOrder(cfg, b, buffered, now);
        case UpstreamMessage(m, pending, now) => UpstreamMessageInOrder(cfg, b, m, pending, now);
        case ClientMessage(m, pending, now) => ClientMessageInOrder(cfg, b, m, pending, now);
        case ChainStart(now) => ChainStartInOrder(cfg, b, now);
        case ChainDecide(pending, now) => ChainDecideInOrder(cfg, b, pending, now);
        case _ => QuietKeepsOrder(cfg, b, Step(cfg, b, e));
      }
    }
  }

  /**
   Bridge ordering, on every order of events: in each direction the messages
   relayed are an in-order prefix of the messages received; while a side is open
   nothing meant for it is missing, except client messages still waiting in the
   limiter chain; and nothing is lost or repeated in the early hand-over.
   */
  lemma {:induction false} BridgeOrdering(cfg: BridgeConfig, early: seq<Message>, earlyClosed: Option<int>,
      start: int, events: seq<Event>)
    ensures var b := After(cfg, Opened(early, earlyClosed, start), events);
            DownInOrder(b) && UpInOrder(cfg, b)
  {
    hide Step;
    if |events| > 0 {
      var front := After(cfg, Opened(early, earlyClosed, start), Front(events));
      hide DownInOrder, UpInOrder, BridgeOk, Opened;
      BridgeOrdering(cfg, early, earlyClosed, start, Front(events));
      RunOk(cfg, early, earlyClosed, start, Front(events));
      StepInOrder(cfg, front, Last(events));
    }
  }
}
