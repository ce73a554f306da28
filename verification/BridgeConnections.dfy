/** acceptClient as it runs: one closure's variables, updated by its callbacks. */
module BridgeConnections {
  import opened Common
  import opened RateLimitTypes
  import Runs
  import opened Bridging
  import opened BridgeProofs

  class Connection {
    const cfg: BridgeConfig
    var ends: Ends
    var life: Life
    var traffic: Traffic
    var meter: Meter
    var handshakeFailed: bool
    var earlyClosed: Option<int>
    var clientAlive: bool
    var upstreamAlive: bool
    var lastActivity: int
    var pings: Pings

    ghost function View(): Bridge
      reads this
    {
      Bridge(ends, life, traffic, meter, handshakeFailed, earlyClosed, clientAlive, upstreamAlive, lastActivity, pings)
    }

    /** The lifecycle, counted sides and close frames of BridgeProofs. */
    ghost predicate Valid()
      reads this
    {
      BridgeOk(View())
    }

    constructor (cfg: BridgeConfig, early: seq<Message>, closed: Option<int>, now: int)
      ensures this.cfg == cfg && View() == Opened(early, closed, now) && Valid()
    {
      this.cfg := cfg;
      ends := Ends(None, if closed.Some? then CLOSED else OPEN, None, None);
      life := Life(false, None, 0, false, Unset, false, false, true, 1, []);
      traffic := Traffic(early, Waiting, [], early, [], [], []);
      meter := Meter(None, [], []);
      handshakeFailed, earlyClosed := false, closed;
      clientAlive, upstreamAlive, lastActivity, pings := true, true, now, Pings(0, 0);
    }

    method SetFirstCause(cause: Cause)
      modifies this`life
      ensures View() == old(View()).(life := WithCause(old(View()).life, cause))
    {
      if life.firstCause.None? {
        life := life.(firstCause := Some(cause));
      }
    }

    method RunFinish()
      modifies this`life
      ensures View() == old(View()).(life := Finish(old(View()).life))
    {
      if life.finished {
        return;
      }
      life := life.(finished := true, killTimer := if life.killTimer == Armed then Cleared else life.killTimer,
                    heartbeat := false, idleTimer := false);
      life := life.(registered := false, gauge := life.gauge - 1, reports := life.reports + [life.firstCause]);
    }

    method ArmKillTimer()
      modifies this`life
      ensures View() == old(View()).(life := ArmKill(old(View()).life))
    {
      if life.killTimer != Unset || life.finished {
        return;
      }
      life := life.(killTimer := Armed);
    }

    method CloseBothSides(code: int, cause: Cause)
      modifies this`ends, this`life
      ensures View() == CloseBoth(old(View()), code, cause)
    {
      hide WithCause, ArmKill;
      SetFirstCause(cause);
      CloseIfOpen(ClientSide, code);
      CloseIfOpen(UpstreamSide, code);
      ArmKillTimer();
      life := life.(closeBegun := true);
    }

    /** One turn of closeBoth's loop over the two sockets. */
    method CloseIfOpen(side: Side, code: int)
      modifies this`ends
      ensures ends == if side.ClientSide? then CloseClient(old(ends), WithCode(code))
          else CloseUpstream(old(ends), WithCode(code))
    {
      match side {
        case ClientSide =>
          if ends.client == Some(OPEN) {
            ends := ends.(client := Some(CLOSING), frameToClient := Some(WithCode(code)));
          }
        case UpstreamSide =>
          if ends.upstream == OPEN {
            ends := ends.(upstream := CLOSING, frameToUpstream := Some(WithCode(code)));
          }
      }
    }

    method SideClosed()
      modifies this`life
      ensures View() == old(View()).(life := OnSideClosed(old(View()).life))
    {
      life := life.(closedSides := life.closedSides + 1);
      if life.closedSides == 2 {
        RunFinish();
      }
    }

    method RelayDown(m: Message, pending: nat, now: int)
      modifies this`ends, this`life, this`traffic, this`lastActivity
      ensures View() == RelayToClient(cfg, old(View()), m, pending, now)
    {
      if ends.client != Some(OPEN) {
        return;
      }
      if pending > cfg.maxBufferedBytes {
        CloseBothSides(1013, Backpressure);
        return;
      }
      traffic := traffic.(toClient := traffic.toClient + [m]);
      lastActivity := now;
    }

    method RelayUp(m: Message, pending: nat, now: int)
      modifies this`ends, this`life, this`traffic, this`lastActivity
      ensures View() == RelayToUpstream(cfg, old(View()), m, pending, now)
    {
      if ends.upstream != OPEN {
        return;
      }
      if pending > cfg.maxBufferedBytes {
        CloseBothSides(1013, Backpressure);
        return;
      }
      traffic := traffic.(toUpstream := traffic.toUpstream + [m]);
      lastActivity := now;
    }

    /** The 'close' event of the client's socket. */
    method ClientCloseEvent(code: int)
      modifies this`ends, this`life
      ensures View() == OnClientClose(old(View()), code)
    {
      ends := ends.(client := Some(CLOSED));
      SetFirstCause(ClientClosed);
      if ends.upstream == OPEN {
        ends := ends.(upstream := CLOSING);
        if code == 1005 {
          ends := ends.(frameToUpstream := Some(NoCode));
        } else if IsSendableCloseCode(code) {
          ends := ends.(frameToUpstream := Some(WithCode(code)));
        }
      }
      ArmKillTimer();
      life := life.(closeBegun := true);
      SideClosed();
    }

    /** The 'close' event of the upstream's socket, after the hand-over. */
    method UpstreamCloseEvent(code: int)
      modifies this`ends, this`life
      ensures View() == OnUpstreamClose(old(View()), code)
    {
      ends := ends.(upstream := CLOSED);
      SetFirstCause(UpstreamClosed);
      if ends.client == Some(OPEN) {
        ends := ends.(client := Some(CLOSING));
        if code == 1005 {
          ends := ends.(frameToClient := Some(NoCode));
        } else if IsSendableCloseCode(code) {
          ends := ends.(frameToClient := Some(WithCode(code)));
        }
      }
      ArmKillTimer();
      life := life.(closeBegun := true);
      SideClosed();
    }

    /** The client's handshake failed: its raw socket closed first. */
    method RawSocketClosed()
      requires ends.client.None?
      modifies this`ends, this`life, this`handshakeFailed
      ensures View() == OnHandshakeLost(old(View()))
    {
      SetFirstCause(HandshakeFailed);
      ends := ends.(upstream := Terminated(ends.upstream));
      handshakeFailed := true;
      life := life.(closedSides := 1);
      SideClosed();
    }

    /** The handleUpgrade callback: relay what came early, then the early close, then start the timers. */
    method HandleUpgrade(buffered: seq<nat>, now: int)
      requires |buffered| >= |traffic.early|
      modifies this`ends, this`life, this`traffic, this`lastActivity
      ensures View() == OnAccepted(cfg, old(View()), buffered, now)
    {
      hide RelayToClient, OnUpstreamClose;
      ends := ends.(client := Some(OPEN));
      var early := traffic.early;
      traffic := traffic.(early := []);
      ghost var b0 := View();
      var i := 0;
      while i < |early|
        invariant 0 <= i <= |early|
        invariant RelayEarly(cfg, View(), early[i..], buffered[i..], now) == RelayEarly(cfg, b0, early, buffered, now)
      {
        assert early[i..][1..] == early[i + 1..] && buffered[i..][1..] == buffered[i + 1..];
        RelayDown(early[i], buffered[i], now);
        i := i + 1;
      }
      if earlyClosed.Some? {
        UpstreamCloseEvent(earlyClosed.value);
      }
      life := life.(heartbeat := cfg.pingIntervalMs > 0, idleTimer := cfg.idleTimeoutMs > 0);
    }

    /** A link of the limiter chain starts: skipped once the bridge has a first cause, else the limiter is charged. */
    method ChainLinkStarts(now: int)
      requires cfg.limiter.Some? && |traffic.chain| > 0
      modifies this`traffic, this`meter
      ensures View() == OnChainStart(cfg, old(View()), now)
    {
      hide Metered;
      var m := traffic.chain[0];
      traffic := traffic.(chain := traffic.chain[1..]);
      if life.finished || life.firstCause.Some? {
        return;
      }
      var r := Metered(cfg, meter, now);
      meter := r.0;
      traffic := traffic.(head := Consuming(m, now, r.1));
    }

    /** The limiter's answer arrives. */
    method ChainLinkDecides(pending: nat, now: int)
      requires cfg.limiter.Some? && traffic.head.Consuming?
      modifies this
      ensures View() == OnChainDecide(cfg, old(View()), pending, now)
    {
      var head := traffic.head;
      traffic := traffic.(head := Waiting);
      if !head.allowed {
        CloseBothSides(1008, RateLimited);
        return;
      }
      if ends.upstream == OPEN && pending <= cfg.maxBufferedBytes {
        meter := meter.(relayed := meter.relayed + [Call(head.chargedAt, 1)]);
      }
      RelayUp(head.message, pending, now);
    }

    /** Before the hand-over the upstream's messages are kept, afterwards relayed. */
    method UpstreamSays(m: Message, pending: nat, now: int)
      modifies this
      ensures View() == OnUpstreamMessage(cfg, old(View()), m, pending, now)
    {
      hide RelayToClient;
      traffic := traffic.(fromUpstream := traffic.fromUpstream + [m]);
      if ends.client.None? {
        traffic := traffic.(early := traffic.early + [m]);
      } else {
        RelayDown(m, pending, now);
      }
    }

    /** With a limiter the client's messages join its chain, otherwise they are relayed at once. */
    method ClientSays(m: Message, pending: nat, now: int)
      modifies this
      ensures View() == OnClientMessage(cfg, old(View()), m, pending, now)
    {
      hide RelayToUpstream;
      traffic := traffic.(fromClient := traffic.fromClient + [m]);
      if cfg.limiter.Some? {
        traffic := traffic.(chain := traffic.chain + [m]);
      } else {
        RelayUp(m, pending, now);
      }
    }

    method TerminateBothSides()
      modifies this`ends
      ensures ends == TerminateBoth(old(ends))
    {
      if ends.client.Some? {
        ends := ends.(client := Some(Terminated(ends.client.value)));
      }
      ends := ends.(upstream := Terminated(ends.upstream));
    }

    method HeartbeatFires()
      modifies this
      ensures View() == OnHeartbeatTick(old(View()))
    {
      if !clientAlive || !upstreamAlive {
        SetFirstCause(DeadPeer);
        TerminateBothSides();
        return;
      }
      clientAlive := false;
      upstreamAlive := false;
      if ends.client == Some(OPEN) {
        pings := pings.(client := pings.client + 1);
      }
      if ends.upstream == OPEN {
        pings := pings.(upstream := pings.upstream + 1);
      }
    }

    /** Any event the platform delivers: the invariants stay, and no cause, close, frame or finish is taken back. */
    method Handle(e: Event)
      requires Valid() && Enabled(cfg, View(), e)
      modifies this
      ensures Valid() && BridgeLater(old(View()), View())
      ensures View() == Step(cfg, old(View()), e)
    {
      StepOk(cfg, View(), e);
      hide BridgeOk, BridgeLater, TerminateBoth;
      hide WithCause, ArmKill, BeginClose, OnSideClosed, OnAccepted, OnChainStart, OnChainDecide,
        OnUpstreamMessage, OnClientMessage, OnHeartbeatTick, OnClientClose, OnUpstreamClose, OnHandshakeLost, CloseBoth;
      match e {
        case HandshakeLost => RawSocketClosed();
        case Accepted(buffered, now) => HandleUpgrade(buffered, now);
        case UpstreamMessage(m, pending, now) =>
          UpstreamSays(m, pending, now);
        case ClientMessage(m, pending, now) =>
          ClientSays(m, pending, now);
        case ChainStart(now) => ChainLinkStarts(now);
        case ChainDecide(pending, now) => ChainLinkDecides(pending, now);
        case PeerCloses(ClientSide) => ends := ends.(client := Some(CLOSING));
        case PeerCloses(UpstreamSide) => ends := ends.(upstream := CLOSING);
        case CloseEvent(ClientSide, code) => ClientCloseEvent(code);
        case CloseEvent(UpstreamSide, code) =>
          if ends.client.None? {
            ends := ends.(upstream := CLOSED);
            earlyClosed := Some(code);
          } else {
            UpstreamCloseEvent(code);
          }
        case ErrorEvent(_) => SetFirstCause(SocketError);
        case SendFails(ClientSide) => ends := ends.(client := Some(Terminated(ends.client.value)));
        case SendFails(UpstreamSide) => ends := ends.(upstream := Terminated(ends.upstream));
        case KillTimeout =>
          TerminateBothSides();
          life := life.(killTimer := Fired);
        case Pong(ClientSide) => clientAlive := true;
        case Pong(UpstreamSide) => upstreamAlive := true;
        case HeartbeatTick => HeartbeatFires();
        case IdleTick(now) =>
          if now - lastActivity >= cfg.idleTimeoutMs {
            CloseBothSides(1001, Idle);
          }
        case ShutdownCall => CloseBothSides(1001, Shutdown);
        case TerminateCall =>
          TerminateBothSides();
      }
    }
  }
}
