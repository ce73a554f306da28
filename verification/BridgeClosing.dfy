/** Who is told what when a bridge closes: codes, causes, and when each close happens. */
module BridgeClosing {
  import opened Common
  import RateLimitTypes
  import Runs
  import opened Bridging
  import opened BridgeProofs

  // -------------------------------------------------------------- closing both

  /** Every open side is sent the code and starts closing. */
  predicate BothTold(e: Ends, e': Ends, code: int) {
    && (if e.client == Some(OPEN) then e'.client == Some(CLOSING) && e'.frameToClient == Some(WithCode(code))
        else e'.client == e.client && e'.frameToClient == e.frameToClient)
    && (if e.upstream == OPEN then e'.upstream == CLOSING && e'.frameToUpstream == Some(WithCode(code))
        else e'.upstream == e.upstream && e'.frameToUpstream == e.frameToUpstream)
  }

  /** The cause counts if it is the first, and the kill timer runs; the other timers are left alone. */
  predicate BeginsToClose(l: Life, l': Life, cause: Cause) {
    && l'.firstCause == (if l.firstCause.Some? then l.firstCause else Some(cause))
    && l'.closeBegun && l'.finished == l.finished && (l.finished || l'.killTimer != Unset)
    && l'.heartbeat == l.heartbeat && l'.idleTimer == l.idleTimer
  }

  predicate ClosesBoth(b: Bridge, b': Bridge, code: int, cause: Cause) {
    && BothTold(b.ends, b'.ends, code) && BeginsToClose(b.life, b'.life, cause)
    && b'.traffic.toClient == b.traffic.toClient && b'.traffic.toUpstream == b.traffic.toUpstream
    && b'.lastActivity == b.lastActivity
  }

  lemma CloseBothTells(b: Bridge, code: int, cause: Cause)
    ensures ClosesBoth(b, CloseBoth(b, code, cause), code, cause)
  {}

  // ------------------------------------------------------------ relayed codes

  /**
   What a side gets when the other side has closed with this code: the code
   itself if it may be sent, a frame without a code for 1005, otherwise no frame.
   */
  predicate ToldOf(frame: Option<CloseFrame>, code: int) {
    if code == 1005 then frame == Some(NoCode)
    else if 1000 <= code <= 1003 || 1007 <= code <= 1014 || 3000 <= code <= 4999 then frame == Some(WithCode(code))
    else frame == None
  }

  /** A close event on one side closes it, and takes an open other side into closing with the code it had. */
  lemma CloseIsRelayed(cfg: BridgeConfig, b: Bridge, side: Side, code: int)
    requires BridgeOk(b) && b.ends.client.Some? && Enabled(cfg, b, CloseEvent(side, code))
    ensures var e, e' := b.ends, Step(cfg, b, CloseEvent(side, code)).ends;
            if side.ClientSide? then
              && e'.client == Some(CLOSED) && e'.frameToClient == e.frameToClient
              && (if e.upstream == OPEN then e'.upstream == CLOSING && ToldOf(e'.frameToUpstream, code)
                  else e'.upstream == e.upstream && e'.frameToUpstream == e.frameToUpstream)
            else
              && e'.upstream == CLOSED && e'.frameToUpstream == e.frameToUpstream
              && (if e.client == Some(OPEN) then e'.client == Some(CLOSING) && ToldOf(e'.frameToClient, code)
                  else e'.client == e.client && e'.frameToClient == e.frameToClient)
  {}

  /** All the early messages find room on the client's side. */
  predicate AllFit(cfg: BridgeConfig, buffered: seq<nat>, n: nat) {
    n <= |buffered| && forall i :: 0 <= i < n ==> buffered[i] <= cfg.maxBufferedBytes
  }

  lemma AllFitSplits(cfg: BridgeConfig, buffered: seq<nat>, n: nat)
    requires n <= |buffered|
    ensures AllFit(cfg, buffered, n)
            <==> n == 0 || (buffered[0] <= cfg.maxBufferedBytes && AllFit(cfg, buffered[1..], n - 1))
  {
    if n > 0 {
      assert forall i :: 1 <= i < n ==> buffered[i] == buffered[1..][i - 1];
      if AllFit(cfg, buffered[1..], n - 1) && buffered[0] <= cfg.maxBufferedBytes {
        forall i | 0 <= i < n ensures buffered[i] <= cfg.maxBufferedBytes {
          assert i > 0 ==> buffered[1..][i - 1] == buffered[i];
        }
      }
    }
  }

  lemma {:induction false} EarlyRelayCloses(cfg: BridgeConfig, b: Bridge, early: seq<Message>, buffered: seq<nat>,
      now: int)
    requires |buffered| >= |early| && b.ends.client == Some(OPEN) && b.ends.frameToClient == None
    ensures var b' := RelayEarly(cfg, b, early, buffered, now);
            if AllFit(cfg, buffered, |early|)
            then b'.ends == b.ends && b'.life == b.life && b'.traffic.toClient == b.traffic.toClient + early
            else BothTold(b.ends, b'.ends, 1013) && BeginsToClose(b.life, b'.life, Backpressure)
    decreases |early|
  {
    hide CloseBoth, AllFit;
    AllFitSplits(cfg, buffered, |early|);
    if |early| > 0 {
      var b1 := RelayToClient(cfg, b, early[0], buffered[0], now);
      if buffered[0] <= cfg.maxBufferedBytes {
        EarlyRelayCloses(cfg, b1, early[1..], buffered[1..], now);
        assert early == [early[0]] + early[1..];
      } else {
        CloseBothTells(b, 1013, Backpressure);
        ClosedDropsAll(cfg, b1, early[1..], buffered[1..], now);
      }
    } else {
      assert b.traffic.toClient + early == b.traffic.toClient;
    }
  }

  lemma {:induction false} ClosedDropsAll(cfg: BridgeConfig, b: Bridge, early: seq<Message>, buffered: seq<nat>,
      now: int)
    requires |buffered| >= |early| && b.ends.client != Some(OPEN)
    ensures RelayEarly(cfg, b, early, buffered, now) == b
    decreases |early|
  {
    if |early| > 0 { ClosedDropsAll(cfg, b, early[1..], buffered[1..], now); }
  }

  /** An upstream that closed before the hand-over: the client, once accepted, is told as if it had just happened. */
  lemma EarlyCloseIsRelayed(cfg: BridgeConfig, b: Bridge, buffered: seq<nat>, now: int)
    requires BridgeOk(b) && Enabled(cfg, b, Accepted(buffered, now)) && b.earlyClosed.Some?
    ensures var b' := Step(cfg, b, Accepted(buffered, now));
            && b'.ends.client == Some(CLOSING)
            && (if AllFit(cfg, buffered, |b.traffic.early|) then ToldOf(b'.ends.frameToClient, b.earlyClosed.value)
                else b'.ends.frameToClient == Some(WithCode(1013)))
  {
    hide RelayEarly, BeginClose, OnSideClosed;
    var b0 := b.(ends := b.ends.(client := Some(OPEN)), traffic := b.traffic.(early := []));
    EarlyRelayCloses(cfg, b0, b.traffic.early, buffered, now);
  }

  // ----------------------------------------------------------------- messages

  /** The message went out on that side, and nothing else happened to the sides. */
  predicate Relays(b: Bridge, b': Bridge, side: Side, m: Message, now: int) {
    && b'.ends == b.ends && b'.life == b.life && b'.lastActivity == now
    && (if side.ClientSide? then b'.traffic.toClient == b.traffic.toClient + [m]
       && b'.traffic.toUpstream == b.traffic.toUpstream
        else b'.traffic.toUpstream == b.traffic.toUpstream + [m] && b'.traffic.toClient == b.traffic.toClient)
  }

  /** Nothing goes out, nothing closes. */
  predicate Silent(b: Bridge, b': Bridge) {
    && b'.ends == b.ends && b'.life == b.life && b'.lastActivity == b.lastActivity
    && b'.traffic.toClient == b.traffic.toClient && b'.traffic.toUpstream == b.traffic.toUpstream
  }

  /**
   Room decides: a message for an open side goes out if and only if at most
   maxBufferedBytes are waiting there; otherwise both sides close with 1013. One
   for a side that is not open is dropped.
   */
  predicate RelaysIfRoom(cfg: BridgeConfig, b: Bridge, b': Bridge, side: Side, m: Message, pending: nat, now: int) {
    if (if side.ClientSide? then b.ends.client != Some(OPEN) else b.ends.upstream != OPEN) then Silent(b, b')
    else if pending <= cfg.maxBufferedBytes then Relays(b, b', side, m, now)
    else ClosesBoth(b, b', 1013, Backpressure)
  }

  lemma RelayedIfRoom(cfg: BridgeConfig, b: Bridge, m: Message, pending: nat, now: int)
    ensures b.ends.client.Some? ==> RelaysIfRoom(cfg, b, RelayToClient(cfg, b, m, pending, now), ClientSide, m,
        pending, now)
    ensures RelaysIfRoom(cfg, b, RelayToUpstream(cfg, b, m, pending, now), UpstreamSide, m, pending, now)
  {
    CloseBothTells(b, 1013, Backpressure);
    hide CloseBoth;
  }

  lemma MessagesGoOutIfRoom(cfg: BridgeConfig, b: Bridge, e: Event)
    requires Enabled(cfg, b, e)
    ensures var b' := Step(cfg, b, e);
            match e
            case UpstreamMessage(m, pending, now) =>
              if b.ends.client.None? then Silent(b, b') && b'.traffic.early == b.traffic.early + [m]
              else RelaysIfRoom(cfg, b, b', ClientSide, m, pending, now)
            case ClientMessage(m, pending, now) =>
              if cfg.limiter.Some? then Silent(b, b') && b'.traffic.chain == b.traffic.chain + [m]
              else RelaysIfRoom(cfg, b, b', UpstreamSide, m, pending, now)
            case ChainDecide(pending, now) =>
              if b.traffic.head.allowed then RelaysIfRoom(cfg, b, b', UpstreamSide, b.traffic.head.message, pending,
                  now)
              else ClosesBoth(b, b', 1008, RateLimited)
            case _ => true
  {
    hide CloseBoth, RelayToClient, RelayToUpstream, BothTold, BeginsToClose, Metered;
    match e {
      case UpstreamMessage(m, pending, now) =>
        RelayedIfRoom(cfg, b.(traffic := b.traffic.(fromUpstream := b.traffic.fromUpstream + [m])), m, pending, now);
      case ClientMessage(m, pending, now) =>
        RelayedIfRoom(cfg, b.(traffic := b.traffic.(fromClient := b.traffic.fromClient + [m])), m, pending, now);
      case ChainDecide(pending, now) =>
        var head := b.traffic.head;
        var b1 := b.(traffic := b.traffic.(head := Waiting));
        var b2 := b1.(meter := b1.meter.(relayed := b1.meter.relayed + [RateLimitTypes.Call(head.chargedAt, 1)]));
        CloseBothTells(b1, 1008, RateLimited);
        RelayedIfRoom(cfg, b1, head.message, pending, now);
        RelayedIfRoom(cfg, b2, head.message, pending, now);
      case _ =>
    }
  }

  /** An idle tick closes both sides with 1001 if nothing was relayed for idleTimeoutMs; a shutdown does so at once. */
  lemma IdleAndShutdownClose(cfg: BridgeConfig, b: Bridge, e: Event)
    requires Enabled(cfg, b, e)
    ensures var b' := Step(cfg, b, e);
            match e
            case IdleTick(now) => if now >= b.lastActivity + cfg.idleTimeoutMs then ClosesBoth(b, b', 1001, Idle)
                else b' == b
            case ShutdownCall => ClosesBoth(b, b', 1001, Shutdown)
            case _ => true
  {
    hide CloseBoth, ClosesBoth;
    CloseBothTells(b, 1001, Idle);
    CloseBothTells(b, 1001, Shutdown);
  }

  /** The sides are cut, without a frame. */
  predicate Cut(b: Bridge, b': Bridge) {
    && b'.ends.client == (if b.ends.client == Some(OPEN) then Some(CLOSING) else b.ends.client)
    && b'.ends.upstream == (if b.ends.upstream == OPEN then CLOSING else b.ends.upstream)
    && b'.ends.frameToClient == b.ends.frameToClient && b'.ends.frameToUpstream == b.ends.frameToUpstream
    && b'.traffic == b.traffic
  }

  /**
   A heartbeat tick that finds a side without a pong since the last one cuts both
   sides; otherwise it pings the open ones and expects their pongs. The kill
   timer and terminate cut both sides.
   */
  lemma SilenceIsCut(cfg: BridgeConfig, b: Bridge, e: Event)
    requires Enabled(cfg, b, e)
    ensures var b' := Step(cfg, b, e);
            match e
            case HeartbeatTick =>
              if b.clientAlive && b.upstreamAlive then
                && b'.ends == b.ends && b'.life == b.life && !b'.clientAlive && !b'.upstreamAlive
                && b'.pings.client == b.pings.client + (if b.ends.client == Some(OPEN) then 1 else 0)
                && b'.pings.upstream == b.pings.upstream + (if b.ends.upstream == OPEN then 1 else 0)
              else
                && Cut(b, b') && b'.pings == b.pings
                && b'.life == b.life.(firstCause := b'.life.firstCause)
                && b'.life.firstCause == (if b.life.firstCause.Some? then b.life.firstCause else Some(DeadPeer))
            case Pong(side) => b' == if side.ClientSide? then b.(clientAlive := true) else b.(upstreamAlive := true)
            case KillTimeout => Cut(b, b') && b'.life == b.life.(killTimer := Fired)
            case TerminateCall => Cut(b, b') && b'.life == b.life
            case _ => b'.clientAlive == b.clientAlive && b'.upstreamAlive == b.upstreamAlive && b'.pings == b.pings
  {
    hide BeginClose, OnSideClosed, Metered;
    if !(e.HeartbeatTick? || e.Pong? || e.KillTimeout? || e.TerminateCall?) {
      OthersKeepPulse(cfg, b, e);
      hide Step, Enabled;
    }
  }

  lemma OthersKeepPulse(cfg: BridgeConfig, b: Bridge, e: Event)
    requires Enabled(cfg, b, e) && !(e.HeartbeatTick? || e.Pong? || e.KillTimeout? || e.TerminateCall?)
    ensures var b' := Step(cfg, b, e);
            b'.clientAlive == b.clientAlive && b'.upstreamAlive == b.upstreamAlive && b'.pings == b.pings
  {
    hide BeginClose, OnSideClosed, Metered, CloseClient, CloseUpstream, RelayCloseToClient, RelayCloseToUpstream;
    if e.Accepted? {
      var b0 := b.(ends := b.ends.(client := Some(OPEN)), traffic := b.traffic.(early := []));
      EarlyRelayKeepsPulse(cfg, b0, b.traffic.early, e.buffered, e.now);
      hide RelayEarly;
    }
  }

  lemma {:induction false} EarlyRelayKeepsPulse(cfg: BridgeConfig, b: Bridge, early: seq<Message>, buffered: seq<nat>,
      now: int)
    requires |buffered| >= |early|
    ensures var b' := RelayEarly(cfg, b, early, buffered, now);
            b'.clientAlive == b.clientAlive && b'.upstreamAlive == b.upstreamAlive && b'.pings == b.pings
    decreases |early|
  {
    hide BeginClose;
    if |early| > 0 {
      EarlyRelayKeepsPulse(cfg, RelayToClient(cfg, b, early[0], buffered[0], now), early[1..], buffered[1..], now);
    }
  }

  /**
   The remaining socket events. A lost handshake terminates the upstream; an
   error only names the cause; a failed send cuts its own side without a frame; a
   link of the limiter chain that starts while the bridge is closing drops its
   message uncharged.
   */
  lemma TroubleIsHandled(cfg: BridgeConfig, b: Bridge, e: Event)
    requires BridgeOk(b) && Enabled(cfg, b, e)
    ensures var b' := Step(cfg, b, e);
            match e
            case HandshakeLost => b'.ends.upstream != OPEN && b'.ends.client.None? && b'.handshakeFailed
                && b'.life.finished && b'.life.firstCause == (if b.life.firstCause.Some? then b.life.firstCause
                                                              else Some(HandshakeFailed))
            case ErrorEvent(_) =>
              && b' == b.(life := b'.life)
              && b'.life == b.life.(firstCause := if b.life.firstCause.Some? then b.life.firstCause
                                    else Some(SocketError))
            case SendFails(side) =>
              && b' == b.(ends := b'.ends)
              && (if side.ClientSide? then b'.ends == b.ends.(client := b'.ends.client) && b'.ends.client != Some(OPEN)
                  else b'.ends == b.ends.(upstream := b'.ends.upstream) && b'.ends.upstream != OPEN)
            case ChainStart(_) =>
              b.life.firstCause.Some? ==> b' == b.(traffic := b.traffic.(chain := b.traffic.chain[1..]))
            case _ => true
  {}

  // ------------------------------------------------------- codes over whole runs

  /** The codes the gateway sends of itself, and those it relays. */
  predicate Accounted(frame: Option<CloseFrame>, from: Side, events: seq<Event>, earlyClosed: Option<int>) {
    frame.Some? && frame.value.WithCode? ==>
      || frame.value.code in {1001, 1008, 1013}
      || CloseEvent(from, frame.value.code) in events
      || (from.UpstreamSide? && earlyClosed == Some(frame.value.code))
  }

  ghost predicate CodesOk(b: Bridge, events: seq<Event>, earlyClosed: Option<int>) {
    && Accounted(b.ends.frameToUpstream, ClientSide, events, earlyClosed)
    && Accounted(b.ends.frameToClient, UpstreamSide, events, earlyClosed)
    && (b.earlyClosed.Some? ==> b.earlyClosed == earlyClosed || CloseEvent(UpstreamSide, b.earlyClosed.value) in events)
  }

  lemma {:induction false} EarlyRelayCodes(cfg: BridgeConfig, b: Bridge, early: seq<Message>, buffered: seq<nat>,
      now: int)
    requires |buffered| >= |early|
    ensures var b' := RelayEarly(cfg, b, early, buffered, now);
            && b'.earlyClosed == b.earlyClosed
            && (b'.ends.frameToClient == b.ends.frameToClient || b'.ends.frameToClient == Some(WithCode(1013)))
            && (b'.ends.frameToUpstream == b.ends.frameToUpstream || b'.ends.frameToUpstream == Some(WithCode(1013)))
    decreases |early|
  {
    hide BeginClose;
    if |early| > 0 {
      EarlyRelayCodes(cfg, RelayToClient(cfg, b, early[0], buffered[0], now), early[1..], buffered[1..], now);
    }
  }

  /** A frame that one event may put on a side. */
  predicate NewFrame(f: Option<CloseFrame>, f': Option<CloseFrame>, from: Side, e: Event, earlyClosed: Option<int>) {
    || f' == f || f' == Some(NoCode)
    || (f'.Some? && (|| f'.value.code in {1001, 1008, 1013}
                     || e == CloseEvent(from, f'.value.code)
                     || (from.UpstreamSide? && e.Accepted? && earlyClosed == Some(f'.value.code))))
  }

  ghost predicate FramesNew(b: Bridge, b': Bridge, e: Event) {
    && NewFrame(b.ends.frameToUpstream, b'.ends.frameToUpstream, ClientSide, e, b.earlyClosed)
    && NewFrame(b.ends.frameToClient, b'.ends.frameToClient, UpstreamSide, e, b.earlyClosed)
    && (b'.earlyClosed == b.earlyClosed
       || (b'.earlyClosed.Some? && e == CloseEvent(UpstreamSide, b'.earlyClosed.value)))
  }

  lemma UpstreamCloseFrames(b: Bridge, code: int)
    ensures var b' := OnUpstreamClose(b, code);
            && b'.earlyClosed == b.earlyClosed && b'.ends.frameToUpstream == b.ends.frameToUpstream
            && b'.ends.frameToClient in {b.ends.frameToClient, Some(NoCode), Some(WithCode(code))}
  {
    hide BeginClose, OnSideClosed;
  }

  lemma AcceptedFrames(cfg: BridgeConfig, b: Bridge, e: Event)
    requires Enabled(cfg, b, e) && e.Accepted?
    ensures FramesNew(b, Step(cfg, b, e), e)
  {
    var b0 := b.(ends := b.ends.(client := Some(OPEN)), traffic := b.traffic.(early := []));
    EarlyRelayCodes(cfg, b0, b.traffic.early, e.buffered, e.now);
    if b.earlyClosed.Some? {
      UpstreamCloseFrames(RelayEarly(cfg, b0, b.traffic.early, e.buffered, e.now), b.earlyClosed.value);
    }
    hide RelayEarly, OnUpstreamClose;
  }

  lemma CloseFrames(cfg: BridgeConfig, b: Bridge, e: Event)
    requires Enabled(cfg, b, e) && e.CloseEvent?
    ensures FramesNew(b, Step(cfg, b, e), e)
  {
    hide BeginClose, OnSideClosed, IsSendableCloseCode;
  }

  lemma FramesStep(cfg: BridgeConfig, b: Bridge, e: Event)
    ensures FramesNew(b, Step(cfg, b, e), e)
  {
    if Enabled(cfg, b, e) {
      match e {
        case Accepted(_, _) => AcceptedFrames(cfg, b, e);
        case CloseEvent(_, _) => CloseFrames(cfg, b, e);
        case _ => OtherFrames(cfg, b, e);
      }
    }
  }

  lemma OtherFrames(cfg: BridgeConfig, b: Bridge, e: Event)
    requires Enabled(cfg, b, e) && !e.Accepted? && !e.CloseEvent?
    ensures FramesNew(b, Step(cfg, b, e), e)
  {
    if e.UpstreamMessage? || e.ClientMessage? || e.ChainDecide? {
      MessageFrames(cfg, b, e);
    } else if e.IdleTick? || e.ShutdownCall? || e.HeartbeatTick? || e.Pong? || e.KillTimeout? || e.TerminateCall? {
      TickFrames(cfg, b, e);
    } else {
      TroubleFrames(cfg, b, e);
    }
    hide Step, Enabled, FramesNew;
  }

  lemma MessageFrames(cfg: BridgeConfig, b: Bridge, e: Event)
    requires Enabled(cfg, b, e) && (e.UpstreamMessage? || e.ClientMessage? || e.ChainDecide?)
    ensures FramesNew(b, Step(cfg, b, e), e)
  {
    EarlyCloseOnlyByEvent(cfg, b, e);
    MessagesGoOutIfRoom(cfg, b, e);
    hide Step, Enabled;
  }

  lemma TickFrames(cfg: BridgeConfig, b: Bridge, e: Event)
    requires Enabled(cfg, b, e)
    requires e.IdleTick? || e.ShutdownCall? || e.HeartbeatTick? || e.Pong? || e.KillTimeout? || e.TerminateCall?
    ensures FramesNew(b, Step(cfg, b, e), e)
  {
    EarlyCloseOnlyByEvent(cfg, b, e);
    IdleAndShutdownClose(cfg, b, e);
    SilenceIsCut(cfg, b, e);
    hide Step, Enabled;
  }

  lemma TroubleFrames(cfg: BridgeConfig, b: Bridge, e: Event)
    requires Enabled(cfg, b, e)
    requires e.PeerCloses? || e.ErrorEvent? || e.SendFails? || e.ChainStart? || e.HandshakeLost?
    ensures FramesNew(b, Step(cfg, b, e), e)
  {
    hide Metered, OnSideClosed;
  }

  lemma EarlyCloseOnlyByEvent(cfg: BridgeConfig, b: Bridge, e: Event)
    requires !e.Accepted? && !e.CloseEvent?
    ensures Step(cfg, b, e).earlyClosed == b.earlyClosed
  {
    hide CloseClient, CloseUpstream, BeginClose, OnSideClosed, Metered;
  }

  lemma AccountedGrows(f: Option<CloseFrame>, f': Option<CloseFrame>, from: Side, e: Event, events: seq<Event>,
                       now: Option<int>, earlyClosed: Option<int>)
    requires Accounted(f, from, events, earlyClosed) && NewFrame(f, f', from, e, now)
    requires now.Some? ==> now == earlyClosed || CloseEvent(UpstreamSide, now.value) in events
    ensures Accounted(f', from, events + [e], earlyClosed)
  {}

  lemma CodesStep(cfg: BridgeConfig, b: Bridge, e: Event, events: seq<Event>, earlyClosed: Option<int>)
    requires CodesOk(b, events, earlyClosed)
    ensures CodesOk(Step(cfg, b, e), events + [e], earlyClosed)
  {
    hide Step, NewFrame, Accounted;
    var b' := Step(cfg, b, e);
    FramesStep(cfg, b, e);
    AccountedGrows(b.ends.frameToUpstream, b'.ends.frameToUpstream, ClientSide, e, events, b.earlyClosed, earlyClosed);
    AccountedGrows(b.ends.frameToClient, b'.ends.frameToClient, UpstreamSide, e, events, b.earlyClosed, earlyClosed);
  }

  /**
   On every order of events a code on a close frame is either the one the other
   side closed with, or one of the gateway's own: 1001, 1008 and 1013.
   */
  lemma {:induction false} CodesAreRelayedOrOwn(cfg: BridgeConfig, early: seq<Message>, earlyClosed: Option<int>,
      start: int,
                                                events: seq<Event>)
    ensures CodesOk(After(cfg, Opened(early, earlyClosed, start), events), events, earlyClosed)
  {
    hide Step, CodesOk;
    if |events| > 0 {
      CodesAreRelayedOrOwn(cfg, early, earlyClosed, start, Front(events));
      CodesStep(cfg, After(cfg, Opened(early, earlyClosed, start), Front(events)), Last(events), Front(events),
          earlyClosed);
      assert Front(events) + [Last(events)] == events;
    } else {
      CodesAtFirst(early, earlyClosed, start);
    }
  }

  lemma CodesAtFirst(early: seq<Message>, earlyClosed: Option<int>, start: int)
    ensures CodesOk(Opened(early, earlyClosed, start), [], earlyClosed)
  {}

  // ------------------------------------------------------------------- causes

  /** What the event that sets the first cause makes of it. */
  predicate Explains(cfg: BridgeConfig, b: Bridge, e: Event, cause: Cause) {
    match cause
    case HandshakeFailed => e.HandshakeLost?
    case ClientClosed => e.CloseEvent? && e.side.ClientSide?
    case UpstreamClosed => (e.CloseEvent? && e.side.UpstreamSide?) || (e.Accepted? && b.earlyClosed.Some?)
    case RateLimited => e.ChainDecide? && b.traffic.head.Consuming? && !b.traffic.head.allowed
    case Backpressure =>
      || (e.UpstreamMessage? && e.pending > cfg.maxBufferedBytes)
      || (e.ClientMessage? && e.pending > cfg.maxBufferedBytes)
      || (e.ChainDecide? && e.pending > cfg.maxBufferedBytes)
      || (e.Accepted? && !AllFit(cfg, e.buffered, |b.traffic.early|))
    case SocketError => e.ErrorEvent?
    case DeadPeer => e.HeartbeatTick? && !(b.clientAlive && b.upstreamAlive)
    case Idle => e.IdleTick? && e.now >= b.lastActivity + cfg.idleTimeoutMs
    case Shutdown => e.ShutdownCall?
  }

  lemma ClosingCauses(l: Life, c: Cause)
    ensures OnSideClosed(l).firstCause == l.firstCause
    ensures BeginClose(l, c).firstCause == if l.firstCause.Some? then l.firstCause else Some(c)
  {}

  lemma CauseOfCloses(cfg: BridgeConfig, b: Bridge, e: Event)
    requires b.life.firstCause.None? && Step(cfg, b, e).life.firstCause.Some? && e.CloseEvent?
    ensures Explains(cfg, b, e, Step(cfg, b, e).life.firstCause.value)
  {
    CloseSetsCause(b, e.code);
    hide OnClientClose, OnUpstreamClose;
  }

  lemma CloseSetsCause(b: Bridge, code: int)
    requires b.life.firstCause.None?
    ensures OnClientClose(b, code).life.firstCause == Some(ClientClosed)
    ensures OnUpstreamClose(b, code).life.firstCause == Some(UpstreamClosed)
  {
    hide RelayCloseToClient, RelayCloseToUpstream;
  }

  lemma CauseOfHandshake(cfg: BridgeConfig, b: Bridge, e: Event)
    requires b.life.firstCause.None? && Step(cfg, b, e).life.firstCause.Some? && e.HandshakeLost?
    ensures Explains(cfg, b, e, Step(cfg, b, e).life.firstCause.value)
  {
    ClosingCauses(WithCause(b.life, HandshakeFailed).(closedSides := 1), HandshakeFailed);
    hide OnSideClosed;
  }

  lemma CauseOfTicks(cfg: BridgeConfig, b: Bridge, e: Event)
    requires b.life.firstCause.None? && Step(cfg, b, e).life.firstCause.Some?
    requires e.IdleTick? || e.ShutdownCall? || e.HeartbeatTick?
    ensures Explains(cfg, b, e, Step(cfg, b, e).life.firstCause.value)
  {
    assert Enabled(cfg, b, e);
    IdleAndShutdownClose(cfg, b, e);
    SilenceIsCut(cfg, b, e);
    hide Step, BothTold;
  }

  lemma CauseOfOthers(cfg: BridgeConfig, b: Bridge, e: Event)
    requires b.life.firstCause.None? && Step(cfg, b, e).life.firstCause.Some?
    requires e.ErrorEvent? || e.PeerCloses? || e.SendFails? || e.KillTimeout? || e.Pong? || e.TerminateCall?
        || e.ChainStart?
    ensures Explains(cfg, b, e, Step(cfg, b, e).life.firstCause.value)
  {
    hide Metered, TerminateBoth;
  }

  lemma CauseOfAccepted(cfg: BridgeConfig, b: Bridge, e: Event)
    requires BridgeOk(b) && b.life.firstCause.None? && Step(cfg, b, e).life.firstCause.Some? && e.Accepted?
    ensures Explains(cfg, b, e, Step(cfg, b, e).life.firstCause.value)
  {
    var b0 := b.(ends := b.ends.(client := Some(OPEN)), traffic := b.traffic.(early := []));
    EarlyRelayCloses(cfg, b0, b.traffic.early, e.buffered, e.now);
    hide RelayEarly, AllFit, BothTold, RelayCloseToClient;
  }

  lemma CauseStep(cfg: BridgeConfig, b: Bridge, e: Event)
    requires BridgeOk(b) && b.life.firstCause.None? && Step(cfg, b, e).life.firstCause.Some?
    ensures Explains(cfg, b, e, Step(cfg, b, e).life.firstCause.value)
  {
    if e.UpstreamMessage? || e.ClientMessage? || e.ChainDecide? {
      assert Enabled(cfg, b, e);
      MessagesGoOutIfRoom(cfg, b, e);
      hide Step, BothTold, BridgeOk;
    } else if e.Accepted? {
      CauseOfAccepted(cfg, b, e);
    } else if e.CloseEvent? {
      CauseOfCloses(cfg, b, e);
    } else if e.HandshakeLost? {
      CauseOfHandshake(cfg, b, e);
    } else if e.IdleTick? || e.ShutdownCall? || e.HeartbeatTick? {
      CauseOfTicks(cfg, b, e);
    } else {
      CauseOfOthers(cfg, b, e);
    }
  }

  /** On every order of events the first cause, the one reported, is that of an event that found none. */
  lemma {:induction false} CauseIsOfTheFirst(cfg: BridgeConfig, early: seq<Message>, earlyClosed: Option<int>,
      start: int,
                                             events: seq<Event>)
    requires After(cfg, Opened(early, earlyClosed, start), events).life.firstCause.Some?
    ensures var b0 := Opened(early, earlyClosed, start);
            exists i :: 0 <= i < |events| && After(cfg, b0, events[..i]).life.firstCause.None?
                        && Explains(cfg, After(cfg, b0, events[..i]), events[i],
                           After(cfg, b0, events).life.firstCause.value)
  {
    hide Step, Explains, BridgeOk;
    var b0, n := Opened(early, earlyClosed, start), |events| - 1;
    var front, e := Front(events), Last(events);
    var b := After(cfg, b0, front);
    RunOk(cfg, early, earlyClosed, start, front);
    assert events[..n] == front;
    if b.life.firstCause.None? {
      CauseStep(cfg, b, e);
    } else {
      CauseIsOfTheFirst(cfg, early, earlyClosed, start, front);
      StepKeepsCause(cfg, b, e);
      var i :| 0 <= i < |front| && After(cfg, b0, front[..i]).life.firstCause.None?
               && Explains(cfg, After(cfg, b0, front[..i]), front[i], b.life.firstCause.value);
      assert events[..i] == front[..i] && events[i] == front[i];
    }
  }

  lemma StepKeepsCause(cfg: BridgeConfig, b: Bridge, e: Event)
    requires BridgeOk(b) && b.life.firstCause.Some?
    ensures Step(cfg, b, e).life.firstCause == b.life.firstCause
  {
    hide Step, EndsLater;
    StepOk(cfg, b, e);
  }

  // ---------------------------------------------------------- what is allowed

  /** A message is admitted or denied as the limiter's algorithm, on the calls made so far, decides. */
  lemma LimiterAnswers(cfg: BridgeConfig, b: Bridge, now: int)
    requires Enabled(cfg, b, ChainStart(now)) && !b.life.finished && b.life.firstCause.None?
    requires b.meter.state == Runs.After(cfg.limiter.value.algorithm, cfg.limiter.value.policy, b.meter.consumed)
    ensures var s, head := cfg.limiter.value, Step(cfg, b, ChainStart(now)).traffic.head;
            && head.Consuming? && head.message == b.traffic.chain[0]
            && head.allowed == Runs.Decide(s.algorithm, s.policy, b.meter.consumed, RateLimitTypes.Call(now, 1)).allowed
  {
    hide Runs.Step, Runs.After;
  }
}
