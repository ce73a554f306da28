/**
 One bridged WebSocket connection, from the moment the upstream has opened
 (packages/gateway/src/websocket/proxy.ts): a machine over socket events, timer
 ticks and the steps of the limiter chain, in any order.
 */
module Bridging {
  import opened Common
  import opened RateLimitTypes
  import Runs
  import opened Stores

  datatype Message = Message(data: string, isBinary: bool)

  /** CLOSED is the state after the one 'close' event. */
  datatype ReadyState = OPEN | CLOSING | CLOSED

  datatype Cause =
    | Shutdown | HandshakeFailed | RateLimited | Backpressure | ClientClosed | UpstreamClosed
    | SocketError | DeadPeer | Idle

  datatype Timer = Unset | Armed | Fired | Cleared

  /** A close frame the gateway sent: with a code, or without one. */
  datatype CloseFrame = WithCode(code: int) | NoCode

  /**
   The limiter chain handles one message at a time. `Consuming` is the await:
   the store has charged the message, and its answer is on the way.
   */
  datatype ChainHead = Waiting | Consuming(message: Message, chargedAt: int, allowed: bool)

  datatype BridgeConfig = BridgeConfig(limiter: Option<Setting>, maxBufferedBytes: nat, pingIntervalMs: int,
      idleTimeoutMs: int)

  /** The two sockets, and the close frame the gateway sent on each. */
  datatype Ends = Ends(client: Option<ReadyState>, upstream: ReadyState, frameToClient: Option<CloseFrame>,
      frameToUpstream: Option<CloseFrame>)

  /** Closing down: the closure's flags and timers, and what registry and metrics were told. */
  datatype Life = Life(
    finished: bool,
    firstCause: Option<Cause>,
    closedSides: nat,
    closeBegun: bool,
    killTimer: Timer,
    heartbeat: bool,
    idleTimer: bool,
    registered: bool,
    gauge: int,
    reports: seq<Option<Cause>>)

  /** Messages: buffered early, queued in the limiter chain, received and relayed. */
  datatype Traffic = Traffic(
    early: seq<Message>,
    head: ChainHead,
    chain: seq<Message>,
    fromUpstream: seq<Message>,
    toClient: seq<Message>,
    fromClient: seq<Message>,
    toUpstream: seq<Message>)

  /** The per-connection limiter: its state, every call made on it, and the calls whose message then went out. */
  datatype Meter = Meter(state: Option<Runs.State>, consumed: seq<Call>, relayed: seq<Call>)

  /** Pings sent to each side. */
  datatype Pings = Pings(client: nat, upstream: nat)

  datatype Bridge = Bridge(
    ends: Ends,
    life: Life,
    traffic: Traffic,
    meter: Meter,
    handshakeFailed: bool,
    earlyClosed: Option<int>,
    clientAlive: bool,
    upstreamAlive: bool,
    lastActivity: int,
    pings: Pings)

  datatype Side = ClientSide | UpstreamSide

  datatype Event =
    | HandshakeLost
    | Accepted(buffered: seq<nat>, now: int)
    | UpstreamMessage(message: Message, pending: nat, now: int)
    | ClientMessage(message: Message, pending: nat, now: int)
    | ChainStart(now: int)
    | ChainDecide(pending: nat, now: int)
    | PeerCloses(side: Side)
    | CloseEvent(side: Side, code: int)
    | ErrorEvent(side: Side)
    | SendFails(side: Side)
    | KillTimeout
    | Pong(side: Side)
    | HeartbeatTick
    | IdleTick(now: int)
    | ShutdownCall
    | TerminateCall

  /** A bridge just registered: upstream open, with what it said since, client still handshaking. */
  function Opened(early: seq<Message>, earlyClosed: Option<int>, now: int): Bridge {
    Bridge(Ends(None, if earlyClosed.Some? then CLOSED else OPEN, None, None),
           Life(false, None, 0, false, Unset, false, false, true, 1, []),
           Traffic(early, Waiting, [], early, [], [], []),
           Meter(None, [], []), false, earlyClosed, true, true, now, Pings(0, 0))
  }

  // ------------------------------------------------------- shared closures

  function Terminated(s: ReadyState): ReadyState {
    if s == CLOSED then CLOSED else CLOSING
  }

  function WithCause(l: Life, c: Cause): Life {
    if l.firstCause.Some? then l else l.(firstCause := Some(c))
  }

  function Finish(l: Life): Life {
    if l.finished then l
    else l.(finished := true, killTimer := if l.killTimer == Armed then Cleared else l.killTimer,
            heartbeat := false, idleTimer := false,
            registered := false, gauge := l.gauge - 1, reports := l.reports + [l.firstCause])
  }

  function ArmKill(l: Life): Life {
    if l.killTimer != Unset || l.finished then l else l.(killTimer := Armed)
  }

  /** Both closeBoth and a side's 'close' event set the cause and arm the kill timer. */
  function BeginClose(l: Life, c: Cause): Life {
    ArmKill(WithCause(l, c)).(closeBegun := true)
  }

  function OnSideClosed(l: Life): Life {
    var l1 := l.(closedSides := l.closedSides + 1);
    if l1.closedSides == 2 then Finish(l1) else l1
  }

  function TerminateBoth(e: Ends): Ends {
    e.(client := if e.client.Some? then Some(Terminated(e.client.value)) else None, upstream := Terminated(e.upstream))
  }

  /** ws.close on one side; only an open side sends a frame. */
  function CloseClient(e: Ends, frame: CloseFrame): Ends {
    if e.client == Some(OPEN) then e.(client := Some(CLOSING), frameToClient := Some(frame)) else e
  }

  function CloseUpstream(e: Ends, frame: CloseFrame): Ends {
    if e.upstream == OPEN then e.(upstream := CLOSING, frameToUpstream := Some(frame)) else e
  }

  function CloseBoth(b: Bridge, code: int, cause: Cause): Bridge {
    b.(ends := CloseUpstream(CloseClient(b.ends, WithCode(code)), WithCode(code)), life := BeginClose(b.life, cause))
  }

  predicate IsSendableCloseCode(code: int) {
    (1000 <= code <= 1014 && code != 1004 && code != 1005 && code != 1006) || 3000 <= code <= 4999
  }

  function RelayCloseToUpstream(e: Ends, code: int): Ends {
    if e.upstream != OPEN then e
    else if code == 1005 then CloseUpstream(e, NoCode)
    else if IsSendableCloseCode(code) then CloseUpstream(e, WithCode(code))
    else e.(upstream := CLOSING)
  }

  function RelayCloseToClient(e: Ends, code: int): Ends {
    if e.client != Some(OPEN) then e
    else if code == 1005 then CloseClient(e, NoCode)
    else if IsSendableCloseCode(code) then CloseClient(e, WithCode(code))
    else e.(client := Some(CLOSING))
  }

  function RelayToClient(cfg: BridgeConfig, b: Bridge, m: Message, pending: nat, now: int): Bridge {
    if b.ends.client != Some(OPEN) then b
    else if pending > cfg.maxBufferedBytes then CloseBoth(b, 1013, Backpressure)
    else b.(traffic := b.traffic.(toClient := b.traffic.toClient + [m]), lastActivity := now)
  }

  function RelayToUpstream(cfg: BridgeConfig, b: Bridge, m: Message, pending: nat, now: int): Bridge {
    if b.ends.upstream != OPEN then b
    else if pending > cfg.maxBufferedBytes then CloseBoth(b, 1013, Backpressure)
    else b.(traffic := b.traffic.(toUpstream := b.traffic.toUpstream + [m]), lastActivity := now)
  }

  function OnClientClose(b: Bridge, code: int): Bridge {
    b.(ends := RelayCloseToUpstream(b.ends.(client := Some(CLOSED)), code),
        life := OnSideClosed(BeginClose(b.life, ClientClosed)))
  }

  function OnUpstreamClose(b: Bridge, code: int): Bridge {
    b.(ends := RelayCloseToClient(b.ends.(upstream := CLOSED), code),
        life := OnSideClosed(BeginClose(b.life, UpstreamClosed)))
  }

  // ------------------------------------------------------------------ events

  /** Hand-over: everything the upstream said early, in order. */
  function RelayEarly(cfg: BridgeConfig, b: Bridge, early: seq<Message>, buffered: seq<nat>, now: int): Bridge
    requires |buffered| >= |early|
    decreases |early|
  {
    if |early| == 0 then b
    else RelayEarly(cfg, RelayToClient(cfg, b, early[0], buffered[0], now), early[1..], buffered[1..], now)
  }

  function OnAccepted(cfg: BridgeConfig, b: Bridge, buffered: seq<nat>, now: int): Bridge
    requires |buffered| >= |b.traffic.early|
  {
    var b0 := b.(ends := b.ends.(client := Some(OPEN)), traffic := b.traffic.(early := []));
    var b1 := RelayEarly(cfg, b0, b.traffic.early, buffered, now);
    var b2 := if b.earlyClosed.Some? then OnUpstreamClose(b1, b.earlyClosed.value) else b1;
    b2.(life := b2.life.(heartbeat := cfg.pingIntervalMs > 0, idleTimer := cfg.idleTimeoutMs > 0))
  }

  function OnUpstreamMessage(cfg: BridgeConfig, b: Bridge, m: Message, pending: nat, now: int): Bridge {
    var b1 := b.(traffic := b.traffic.(fromUpstream := b.traffic.fromUpstream + [m]));
    if b.ends.client.None? then b1.(traffic := b1.traffic.(early := b1.traffic.early + [m]))
    else RelayToClient(cfg, b1, m, pending, now)
  }

  function OnClientMessage(cfg: BridgeConfig, b: Bridge, m: Message, pending: nat, now: int): Bridge {
    var b1 := b.(traffic := b.traffic.(fromClient := b.traffic.fromClient + [m]));
    if cfg.limiter.Some? then b1.(traffic := b1.traffic.(chain := b1.traffic.chain + [m]))
    else RelayToUpstream(cfg, b1, m, pending, now)
  }

  /** One call on the limiter's store: it holds a single key, 'connection'. */
  function Metered(cfg: BridgeConfig, m: Meter, now: int): (r: (Meter, bool))
    requires cfg.limiter.Some?
  {
    var a := cfg.limiter.value.algorithm;
    var s := if m.state.Some? && Runs.Fits(a, m.state.value) then m.state else None;
    var r := Runs.Step(a, s, cfg.limiter.value.policy, now, 1);
    (m.(state := Some(r.0), consumed := m.consumed + [Call(now, 1)]), r.1.allowed)
  }

  /** A link starts: skipped once the bridge is closing for a known cause, otherwise the limiter is charged at once. */
  function OnChainStart(cfg: BridgeConfig, b: Bridge, now: int): Bridge
    requires cfg.limiter.Some? && |b.traffic.chain| > 0
  {
    var t := b.traffic.(chain := b.traffic.chain[1..]);
    if b.life.finished || b.life.firstCause.Some? then b.(traffic := t)
    else
      var (meter, allowed) := Metered(cfg, b.meter, now);
      b.(traffic := t.(head := Consuming(b.traffic.chain[0], now, allowed)), meter := meter)
  }

  /** The answer arrives; a message that goes out counts from when it was charged. */
  function OnChainDecide(cfg: BridgeConfig, b: Bridge, pending: nat, now: int): Bridge
    requires cfg.limiter.Some? && b.traffic.head.Consuming?
  {
    var head := b.traffic.head;
    var b1 := b.(traffic := b.traffic.(head := Waiting));
    if !head.allowed then CloseBoth(b1, 1008, RateLimited)
    else if b.ends.upstream == OPEN && pending <= cfg.maxBufferedBytes then
      RelayToUpstream(cfg, b1.(meter := b1.meter.(relayed := b1.meter.relayed + [Call(head.chargedAt, 1)])),
          head.message, pending, now)
    else RelayToUpstream(cfg, b1, head.message, pending, now)
  }

  function OnHandshakeLost(b: Bridge): Bridge {
    b.(ends := b.ends.(upstream := Terminated(b.ends.upstream)), handshakeFailed := true,
       life := OnSideClosed(WithCause(b.life, HandshakeFailed).(closedSides := 1)))
  }

  function OnHeartbeatTick(b: Bridge): Bridge {
    if !b.clientAlive || !b.upstreamAlive then b.(life := WithCause(b.life, DeadPeer), ends := TerminateBoth(b.ends))
    else
      b.(clientAlive := false, upstreamAlive := false,
         pings := Pings(if b.ends.client == Some(OPEN) then b.pings.client + 1 else b.pings.client,
                        if b.ends.upstream == OPEN then b.pings.upstream + 1 else b.pings.upstream))
  }

  /** When the platform can deliver the event at all. */
  predicate Enabled(cfg: BridgeConfig, b: Bridge, e: Event) {
    match e
    case HandshakeLost => b.ends.client.None? && !b.handshakeFailed
    case Accepted(buffered, _) => b.ends.client.None? && !b.handshakeFailed && |buffered| >= |b.traffic.early|
    case UpstreamMessage(_, _, _) => b.ends.upstream != CLOSED
    case ClientMessage(_, _, _) => b.ends.client.Some? && b.ends.client.value != CLOSED
    case ChainStart(_) => cfg.limiter.Some? && b.traffic.head.Waiting? && |b.traffic.chain| > 0
    case ChainDecide(_, _) => cfg.limiter.Some? && b.traffic.head.Consuming?
    case PeerCloses(ClientSide) => b.ends.client == Some(OPEN)
    case PeerCloses(UpstreamSide) => b.ends.upstream == OPEN
    case CloseEvent(ClientSide, _) => b.ends.client.Some? && b.ends.client.value != CLOSED
    case CloseEvent(UpstreamSide, _) => b.ends.upstream != CLOSED
    case ErrorEvent(_) => b.ends.client.Some?
    case SendFails(ClientSide) => b.ends.client.Some?
    case SendFails(UpstreamSide) => b.ends.client.Some?
    case KillTimeout => b.life.killTimer == Armed
    case Pong(_) => b.ends.client.Some?
    case HeartbeatTick => b.life.heartbeat
    case IdleTick(_) => b.life.idleTimer
    case ShutdownCall => b.life.registered
    case TerminateCall => b.life.registered
  }

  function Step(cfg: BridgeConfig, b: Bridge, e: Event): Bridge {
    if !Enabled(cfg, b, e) then b
    else
      match e
      case HandshakeLost => OnHandshakeLost(b)
      case Accepted(buffered, now) => OnAccepted(cfg, b, buffered, now)
      case UpstreamMessage(m, pending, now) => OnUpstreamMessage(cfg, b, m, pending, now)
      case ClientMessage(m, pending, now) => OnClientMessage(cfg, b, m, pending, now)
      case ChainStart(now) => OnChainStart(cfg, b, now)
      case ChainDecide(pending, now) => OnChainDecide(cfg, b, pending, now)
      case PeerCloses(ClientSide) => b.(ends := b.ends.(client := Some(CLOSING)))
      case PeerCloses(UpstreamSide) => b.(ends := b.ends.(upstream := CLOSING))
      case CloseEvent(ClientSide, code) => OnClientClose(b, code)
      case CloseEvent(UpstreamSide, code) =>
        if b.ends.client.None? then b.(ends := b.ends.(upstream := CLOSED), earlyClosed := Some(code))
            else OnUpstreamClose(b, code)
      case ErrorEvent(_) => b.(life := WithCause(b.life, SocketError))
      case SendFails(ClientSide) => b.(ends := b.ends.(client := Some(Terminated(b.ends.client.value))))
      case SendFails(UpstreamSide) => b.(ends := b.ends.(upstream := Terminated(b.ends.upstream)))
      case KillTimeout => b.(ends := TerminateBoth(b.ends), life := b.life.(killTimer := Fired))
      case Pong(ClientSide) => b.(clientAlive := true)
      case Pong(UpstreamSide) => b.(upstreamAlive := true)
      case HeartbeatTick => OnHeartbeatTick(b)
      case IdleTick(now) => if now - b.lastActivity >= cfg.idleTimeoutMs then CloseBoth(b, 1001, Idle) else b
      case ShutdownCall => CloseBoth(b, 1001, Shutdown)
      case TerminateCall => b.(ends := TerminateBoth(b.ends))
  }

  function After(cfg: BridgeConfig, b: Bridge, events: seq<Event>): Bridge {
    if |events| == 0 then b else Step(cfg, After(cfg, b, Front(events)), Last(events))
  }
}
