/** The bridge's timers over whole runs: when they run, and what they go by. */
module BridgeTimers {
  import opened Common
  import opened Bridging
  import opened BridgeProofs
  import opened BridgeClosing

  /** From the hand-over to the end both timers run, each if its interval is positive; before and after, none. */
  predicate TimersRun(cfg: BridgeConfig, b: Bridge) {
    var open := b.ends.client.Some? && !b.life.finished;
    b.life.heartbeat == (open && cfg.pingIntervalMs > 0) && b.life.idleTimer == (open && cfg.idleTimeoutMs > 0)
  }

  lemma TimersOfSideClosed(l: Life, c: Cause)
    ensures var l' := BeginClose(l, c);
            l'.heartbeat == l.heartbeat && l'.idleTimer == l.idleTimer && l'.finished == l.finished
    ensures var l' := OnSideClosed(l);
            if l'.finished && !l.finished then !l'.heartbeat && !l'.idleTimer
            else l'.finished == l.finished && l'.heartbeat == l.heartbeat && l'.idleTimer == l.idleTimer
  {}

  lemma TimersAtHandOver(cfg: BridgeConfig, b: Bridge, buffered: seq<nat>, now: int)
    requires BridgeOk(b) && TimersRun(cfg, b) && Enabled(cfg, b, Accepted(buffered, now))
    ensures TimersRun(cfg, Step(cfg, b, Accepted(buffered, now)))
  {
    var b0 := b.(ends := b.ends.(client := Some(OPEN)), traffic := b.traffic.(early := []));
    EarlyRelayCloses(cfg, b0, b.traffic.early, buffered, now);
    StepOk(cfg, b, Accepted(buffered, now));
    hide RelayEarly, BeginClose, AllFit, EndsLater;
  }

  lemma TimersStep(cfg: BridgeConfig, b: Bridge, e: Event)
    requires BridgeOk(b) && TimersRun(cfg, b)
    ensures TimersRun(cfg, Step(cfg, b, e))
  {
    if Enabled(cfg, b, e) {
      match e {
        case Accepted(buffered, now) => TimersAtHandOver(cfg, b, buffered, now);
        case CloseEvent(_, _) => TimersAtClose(cfg, b, e);
        case HandshakeLost => TimersAtLoss(cfg, b);
        case _ => TimersBetween(cfg, b, e);
      }
    }
  }

  lemma TimersAtLoss(cfg: BridgeConfig, b: Bridge)
    requires BridgeOk(b) && TimersRun(cfg, b) && Enabled(cfg, b, HandshakeLost)
    ensures TimersRun(cfg, Step(cfg, b, HandshakeLost))
  {
    hide Terminated, OnSideClosed;
    TimersOfSideClosed(WithCause(b.life, HandshakeFailed).(closedSides := 1), HandshakeFailed);
  }

  predicate TimersKept(b: Bridge, b': Bridge) {
    b'.ends.client.Some? == b.ends.client.Some? && b'.life.finished == b.life.finished
    && b'.life.heartbeat == b.life.heartbeat && b'.life.idleTimer == b.life.idleTimer
  }

  lemma MessagesKeepTimers(cfg: BridgeConfig, b: Bridge, e: Event)
    requires Enabled(cfg, b, e) && (e.UpstreamMessage? || e.ClientMessage? || e.ChainDecide?)
    ensures TimersKept(b, Step(cfg, b, e))
  {
    MessagesGoOutIfRoom(cfg, b, e);
    hide Step, Enabled;
  }

  lemma TicksKeepTimers(cfg: BridgeConfig, b: Bridge, e: Event)
    requires Enabled(cfg, b, e)
    requires e.IdleTick? || e.ShutdownCall? || e.HeartbeatTick? || e.Pong? || e.KillTimeout? || e.TerminateCall?
    ensures TimersKept(b, Step(cfg, b, e))
  {
    IdleAndShutdownClose(cfg, b, e);
    SilenceIsCut(cfg, b, e);
    hide Step, Enabled;
  }

  lemma TroubleKeepsTimers(cfg: BridgeConfig, b: Bridge, e: Event)
    requires Enabled(cfg, b, e) && (e.PeerCloses? || e.ErrorEvent? || e.SendFails? || e.ChainStart?)
    ensures TimersKept(b, Step(cfg, b, e))
  {
    hide Metered;
  }

  /** No other event touches them. */
  lemma TimersBetween(cfg: BridgeConfig, b: Bridge, e: Event)
    requires TimersRun(cfg, b) && Enabled(cfg, b, e) && !e.Accepted? && !e.CloseEvent? && !e.HandshakeLost?
    ensures TimersRun(cfg, Step(cfg, b, e))
  {
    if e.UpstreamMessage? || e.ClientMessage? || e.ChainDecide? {
      MessagesKeepTimers(cfg, b, e);
    } else if e.PeerCloses? || e.ErrorEvent? || e.SendFails? || e.ChainStart? {
      TroubleKeepsTimers(cfg, b, e);
    } else {
      TicksKeepTimers(cfg, b, e);
    }
    hide Step, Enabled;
  }

  lemma TimersAtClose(cfg: BridgeConfig, b: Bridge, e: Event)
    requires BridgeOk(b) && TimersRun(cfg, b) && Enabled(cfg, b, e) && e.CloseEvent?
    ensures TimersRun(cfg, Step(cfg, b, e))
  {
    hide RelayCloseToClient, RelayCloseToUpstream, BeginClose, OnSideClosed;
    TimersOfClosing(b, e.code);
  }

  lemma TimersOfClosing(b: Bridge, code: int)
    requires b.life.finished ==> !b.life.heartbeat && !b.life.idleTimer
    ensures TimersAfterClose(b, OnClientClose(b, code)) && OnClientClose(b, code).ends.client.Some?
    ensures TimersAfterClose(b, OnUpstreamClose(b, code))
    ensures OnUpstreamClose(b, code).ends.client.Some? == b.ends.client.Some?
  {
    TimersOfSideClosed(b.life, ClientClosed);
    TimersOfSideClosed(b.life, UpstreamClosed);
    TimersOfSideClosed(BeginClose(b.life, ClientClosed), ClientClosed);
    TimersOfSideClosed(BeginClose(b.life, UpstreamClosed), UpstreamClosed);
    hide BeginClose, OnSideClosed;
  }

  predicate TimersAfterClose(b: Bridge, b': Bridge) {
    if b'.life.finished then !b'.life.heartbeat && !b'.life.idleTimer
    else !b.life.finished && b'.life.heartbeat == b.life.heartbeat && b'.life.idleTimer == b.life.idleTimer
  }

  /** The timers on every order of events. */
  lemma {:induction false} TimersRunWhileOpen(cfg: BridgeConfig, early: seq<Message>, earlyClosed: Option<int>,
      start: int, events: seq<Event>)
    ensures TimersRun(cfg, After(cfg, Opened(early, earlyClosed, start), events))
  {
    hide Step;
    if |events| > 0 {
      TimersRunWhileOpen(cfg, early, earlyClosed, start, Front(events));
      RunOk(cfg, early, earlyClosed, start, Front(events));
      hide TimersRun, BridgeOk;
      TimersStep(cfg, After(cfg, Opened(early, earlyClosed, start), Front(events)), Last(events));
    }
  }

  // ------------------------------------------------------------------ pongs

  /** A tick that pinged has gone by, and no pong from this side has come since. */
  predicate Unanswered(cfg: BridgeConfig, b0: Bridge, events: seq<Event>, side: Side) {
    && |events| > 0
    && var b, e := After(cfg, b0, Front(events)), Last(events);
    var before := Unanswered(cfg, b0, Front(events), side);
    if !Enabled(cfg, b, e) then before
    else e != Pong(side) && (before || (e.HeartbeatTick? && b.clientAlive && b.upstreamAlive))
  }

  /** A side counts as dead exactly when it has left a ping unanswered. */
  lemma {:induction false} DeadMeansUnanswered(cfg: BridgeConfig, early: seq<Message>, earlyClosed: Option<int>,
      start: int, events: seq<Event>)
    ensures var b0 := Opened(early, earlyClosed, start);
            && (After(cfg, b0, events).clientAlive <==> !Unanswered(cfg, b0, events, ClientSide))
            && (After(cfg, b0, events).upstreamAlive <==> !Unanswered(cfg, b0, events, UpstreamSide))
  {
    hide Step, Enabled;
    if |events| > 0 {
      DeadMeansUnanswered(cfg, early, earlyClosed, start, Front(events));
      PulseStep(cfg, After(cfg, Opened(early, earlyClosed, start), Front(events)), Last(events));
    }
  }

  lemma PulseStep(cfg: BridgeConfig, b: Bridge, e: Event)
    ensures var b', asks := Step(cfg, b, e), e.HeartbeatTick? && b.clientAlive && b.upstreamAlive;
            if !Enabled(cfg, b, e) then b' == b
            else
              && b'.clientAlive == (e == Pong(ClientSide) || (b.clientAlive && !asks))
              && b'.upstreamAlive == (e == Pong(UpstreamSide) || (b.upstreamAlive && !asks))
  {
    if Enabled(cfg, b, e) {
      SilenceIsCut(cfg, b, e);
      if !e.HeartbeatTick? {
        hide Step, Enabled, Cut;
      }
    }
  }

  // --------------------------------------------------------------- activity

  predicate GoesOut(b: Bridge, b': Bridge) {
    b'.traffic.toClient != b.traffic.toClient || b'.traffic.toUpstream != b.traffic.toUpstream
  }

  function TimeOf(e: Event): int {
    match e
    case Accepted(_, now) => now
    case UpstreamMessage(_, _, now) => now
    case ClientMessage(_, _, now) => now
    case ChainDecide(_, now) => now
    case _ => 0
  }

  /** When a message last went out on either side; before the first, when the bridge opened. */
  function LastRelay(cfg: BridgeConfig, b0: Bridge, start: int, events: seq<Event>): int {
    if |events| == 0 then start
    else if GoesOut(After(cfg, b0, Front(events)), After(cfg, b0, events)) then TimeOf(Last(events))
    else LastRelay(cfg, b0, start, Front(events))
  }

  /** What the idle timer goes by. */
  lemma {:induction false} ActivityIsTheLastRelay(cfg: BridgeConfig, early: seq<Message>, earlyClosed: Option<int>,
      start: int, events: seq<Event>)
    ensures var b0 := Opened(early, earlyClosed, start);
            After(cfg, b0, events).lastActivity == LastRelay(cfg, b0, start, events)
  {
    hide Step, GoesOut;
    if |events| > 0 {
      ActivityIsTheLastRelay(cfg, early, earlyClosed, start, Front(events));
      ActivityStep(cfg, After(cfg, Opened(early, earlyClosed, start), Front(events)), Last(events));
    }
  }

  lemma {:induction false} EarlyRelayActivity(cfg: BridgeConfig, b: Bridge, early: seq<Message>, buffered: seq<nat>,
      now: int)
    requires |buffered| >= |early|
    ensures var b' := RelayEarly(cfg, b, early, buffered, now);
            && b.traffic.toClient <= b'.traffic.toClient && b'.traffic.toUpstream == b.traffic.toUpstream
            && b'.lastActivity == if b'.traffic.toClient == b.traffic.toClient then b.lastActivity else now
    decreases |early|
  {
    hide BeginClose;
    if |early| > 0 {
      EarlyRelayActivity(cfg, RelayToClient(cfg, b, early[0], buffered[0], now), early[1..], buffered[1..], now);
    }
  }

  lemma ActivityStep(cfg: BridgeConfig, b: Bridge, e: Event)
    ensures var b' := Step(cfg, b, e);
            b'.lastActivity == if GoesOut(b, b') then TimeOf(e) else b.lastActivity
  {
    if e.UpstreamMessage? || e.ClientMessage? || e.ChainDecide? {
      MessageActivity(cfg, b, e);
      hide Step;
    } else if e.Accepted? {
      HandOverActivity(cfg, b, e);
      hide Step;
    } else {
      hide Metered, BeginClose, OnSideClosed, RelayCloseToClient, RelayCloseToUpstream, CloseClient, CloseUpstream;
    }
  }

  lemma MessageActivity(cfg: BridgeConfig, b: Bridge, e: Event)
    requires e.UpstreamMessage? || e.ClientMessage? || e.ChainDecide?
    ensures var b' := Step(cfg, b, e);
            b'.lastActivity == if GoesOut(b, b') then TimeOf(e) else b.lastActivity
  {
    if Enabled(cfg, b, e) {
      MessagesGoOutIfRoom(cfg, b, e);
      hide Step, Enabled, BothTold, BeginsToClose;
    }
  }

  lemma HandOverActivity(cfg: BridgeConfig, b: Bridge, e: Event)
    requires e.Accepted?
    ensures var b' := Step(cfg, b, e);
            b'.lastActivity == if GoesOut(b, b') then TimeOf(e) else b.lastActivity
  {
    if Enabled(cfg, b, e) {
      var b0 := b.(ends := b.ends.(client := Some(OPEN)), traffic := b.traffic.(early := []));
      EarlyRelayActivity(cfg, b0, b.traffic.early, e.buffered, e.now);
      hide RelayEarly, BeginClose, OnSideClosed;
    }
  }
}
