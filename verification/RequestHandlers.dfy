/** The two handlers on the shared balancer, and what each request of an interleaved run has in common with them. */
module RequestHandlers {
  import opened Common
  import C = CircuitBreaking
  import opened Balancing
  import opened RequestPools
  import R = Retrying

  // ---------------------------------------------- interleaved retry loops

  /** Every attempt so far ended without an exit. */
  predicate Continues(seen: seq<R.Attempt>, maxAttempts: nat, backoffMs: int) {
    forall i :: 0 <= i < |seen| ==> R.AttemptActions(seen[i], i + 1, maxAttempts, backoffMs).1.None?
  }

  function ActionsOf(seen: seq<R.Attempt>, maxAttempts: nat, backoffMs: int): seq<R.Action> {
    if |seen| == 0 then []
    else ActionsOf(Front(seen), maxAttempts, backoffMs) + R.AttemptActions(Last(seen), |seen|, maxAttempts, backoffMs).0
  }

  predicate FollowsLoop(r: Request) {
    r.kind.Http? ==>
      && |r.kind.seen| <= r.kind.maxAttempts && 1 <= r.kind.maxAttempts
      && (!r.phase.Over?
          ==> |r.kind.seen| < r.kind.maxAttempts && Continues(r.kind.seen, r.kind.maxAttempts, r.kind.backoffMs))
      && (r.phase.Over? ==>
            && |r.kind.seen| > 0 && r.phase.exit.Forward?
            && Continues(Front(r.kind.seen), r.kind.maxAttempts, r.kind.backoffMs)
            && R.AttemptActions(Last(r.kind.seen), |r.kind.seen|, r.kind.maxAttempts, r.kind.backoffMs).1
               == Some(r.phase.exit.exit))
  }

  lemma FollowsStep(setup: Setup, s: Pool, e: Event)
    requires forall id :: id in s.requests ==> FollowsLoop(s.requests[id])
    ensures forall id :: id in Step(setup, s, e).requests ==> FollowsLoop(Step(setup, s, e).requests[id])
  {
    hide R.JitteredBackoff, AfterActions, AfterReport, Chosen, Availability, IsPick, Reports;
  }

  lemma {:induction false} RunFollows(setup: Setup, h: seq<Event>)
    ensures forall id :: id in After(setup, h).requests ==> FollowsLoop(After(setup, h).requests[id])
  {
    hide Step, FollowsLoop;
    if |h| > 0 {
      RunFollows(setup, Front(h));
      FollowsStep(setup, After(setup, Front(h)), Last(h));
    }
  }

  lemma {:induction false} TraceFrom(world: seq<R.Attempt>, k: nat, seen: seq<R.Attempt>, backoffMs: int, exit: R.Exit)
    requires 1 <= k <= |seen| <= |world| && seen <= world && Continues(Front(seen), |world|, backoffMs)
    requires R.AttemptActions(Last(seen), |seen|, |world|, backoffMs).1 == Some(exit)
    ensures var (actions, e) := R.Trace(world, k, |world|, backoffMs);
            ActionsOf(seen[..k - 1], |world|, backoffMs) + actions == ActionsOf(seen, |world|, backoffMs) && e == exit
    decreases |seen| - k
  {
    hide R.AttemptActions;
    assert world[k - 1] == seen[k - 1];
    var mine := seen[..k];
    assert Front(mine) == seen[..k - 1] && Last(mine) == seen[k - 1];
    if k < |seen| {
      assert Front(seen)[k - 1] == seen[k - 1];
      TraceFrom(world, k + 1, seen, backoffMs, exit);
    } else {
      assert mine == seen;
    }
  }

  /**
   However many requests interleave on the pool, each finished retry loop did
   exactly what forwardWithRetry does by itself on the attempts it saw: the same
   picks, forwards, reports and sleeps in the same order, and the same end.
   */
  lemma CallsRunTheLoop(setup: Setup, h: seq<Event>, id: nat, world: seq<R.Attempt>)
    requires var s := After(setup, h);
             && id in s.requests && s.requests[id].kind.Http? && s.requests[id].phase.Over?
             && s.requests[id].kind.seen <= world && |world| == s.requests[id].kind.maxAttempts
    ensures var r := After(setup, h).requests[id];
            && |world| >= 1 && r.phase.exit.Forward?
            && R.Trace(world, 1, |world|, r.kind.backoffMs)
               == (ActionsOf(r.kind.seen, r.kind.maxAttempts, r.kind.backoffMs), r.phase.exit.exit)
  {
    hide After, R.Trace, R.AttemptActions;
    RunFollows(setup, h);
    var r := After(setup, h).requests[id];
    assert FollowsLoop(r);
    TraceFrom(world, 1, r.kind.seen, r.kind.backoffMs, r.phase.exit.exit);
    assert r.kind.seen[..0] == [];
    assert [] + R.Trace(world, 1, |world|, r.kind.backoffMs).0 == R.Trace(world, 1, |world|, r.kind.backoffMs).0;
  }

  /** What one call does to the slots: every pick is reported, except by its own BodyTooLargeError. */
  lemma RetryLeaksOnlyOnBodyTooLarge(retry: Option<R.RetryConfig>, httpMethod: string, world: seq<R.Attempt>)
    requires |world| == R.MaxAttempts(retry, httpMethod)
    ensures var (trace, exit) := R.Trace(world, 1, |world|, if retry.Some? then retry.value.backoffMs else 0);
            var picks, reports := R.Targets(trace, R.Picked), R.Targets(trace, R.Reported);
            if exit.BodyTooLargeError?
            then |picks| > 0 && multiset(picks) == multiset(reports) + multiset{Last(picks)}
            else multiset(picks) == multiset(reports)
  {
    hide R.Trace, R.Targets, R.Sleeps, R.TargetsTried, R.EndsAt, R.Backoffs;
    var b := if retry.Some? then retry.value.backoffMs else 0;
    var last := R.RetryAccounting(world, 1, b);
    var (trace, exit) := R.Trace(world, 1, |world|, b);
    var picks := R.Targets(trace, R.Picked);
    if exit.BodyTooLargeError? { assert picks == Front(picks) + [Last(picks)]; }
  }

  // ------------------------------------------------- the handlers, one at a time

  ghost function View(b: Balancer, requests: map<nat, Request>): Pool
    reads b
  {
    Pool(b.targets, b.cursor, requests)
  }

  ghost predicate Fits(setup: Setup, b: Balancer)
    reads b
  {
    b.Valid() && b.options == setup.options
  }

  /** One attempt of the retry loop on the balancer itself. */
  method Attempt(b: Balancer, ghost setup: Setup, ghost id: nat, ghost kind: Kind, attempt: nat, maxAttempts: nat,
      clock: seq<int>,
                 outcome: R.Outcome, ghost draw: real, now: int)
    returns (exit: Option<R.Exit>, ghost after: Request, ghost events: seq<Event>)
    requires Fits(setup, b) && |clock| == |b.targets| && kind.Http? && kind.maxAttempts == maxAttempts
        && |kind.seen| + 1 == attempt
    requires attempt <= maxAttempts
    modifies b
    ensures Fits(setup, b) && |b.targets| == |old(b.targets)|
    ensures View(b, map[id := after]) == From(setup, old(View(b, map[id := Request(kind, Choosing)])), events)
    ensures exit.Some? ==> after.phase.Over? && after.phase.exit == Forward(exit.value)
    ensures exit.None?
        ==> attempt < maxAttempts && after.phase.Choosing? && after.kind.Http? && |after.kind.seen| == attempt
            && after.kind == kind.(seen := after.kind.seen)
  {
    hide Reported, Availability, IsPick, Chosen, R.JitteredBackoff, AfterReport, AfterAttempt;
    ghost var s := View(b, map[id := Request(kind, Choosing)]);
    var url, pick := b.PickTarget(clock);
    ghost var s1 := Step(setup, s, Picks(id, clock, pick));
    FromOne(setup, s, Picks(id, clock, pick));
    if url.None? {
      after, events := s1.requests[id], [Picks(id, clock, pick)];
      assert s1.requests == map[id := after];
      return Some(R.NoHealthyTarget), after, events;
    }
    assert s1.requests == map[id := Request(kind, Holding(pick.value))];
    PickedUrl(setup, s, id, clock, pick);
    assert View(b, s1.requests) == s1;
    ghost var s2 := Step(setup, s1, Forwarded(id, outcome, draw, now));
    FromTwo(setup, s, Picks(id, clock, pick), Forwarded(id, outcome, draw, now));
    assert s2 == AfterAttempt(setup, s1, id, outcome, draw, now);
    hide Step;
    AttemptEffect(setup, s1, id, outcome, draw, now);
    AttemptExit(setup, s1, id, outcome, draw, now);
    after, events := s2.requests[id], [Picks(id, clock, pick), Forwarded(id, outcome, draw, now)];
    assert s2.requests == map[id := after];
    match outcome {
      case Response(code) =>
        b.Report(url.value, code < 500, now);
        exit := Some(R.Returned(code));
        assert View(b, map[id := after]).targets == s2.targets;
      case BodyTooLarge =>
        exit := Some(R.BodyTooLargeError);
      case ConnectionError(message) =>
        b.Report(url.value, false, now);
        exit := if attempt < maxAttempts then None else Some(R.LastError(message));
        assert View(b, map[id := after]).targets == s2.targets;
    }
  }

  lemma PickedUrl(setup: Setup, s: Pool, id: nat, clock: seq<int>, pick: Option<nat>)
    requires Enabled(setup, s, Picks(id, clock, pick)) && pick.Some?
    ensures var s1 := Step(setup, s, Picks(id, clock, pick));
            pick.value < |s.targets| == |s1.targets| && s1.targets[pick.value].url == s.targets[pick.value].url
  {}

  lemma AttemptExit(setup: Setup, s: Pool, id: nat, outcome: R.Outcome, draw: real, now: int)
    requires Is(s, id, true)
    ensures var r, phase := s.requests[id], AfterAttempt(setup, s, id, outcome, draw, now).requests[id].phase;
            match outcome
            case Response(code) => phase == Over(Forward(R.Returned(code)), None)
            case BodyTooLarge => phase == Over(Forward(R.BodyTooLargeError), Some(r.phase.index))
            case ConnectionError(m) =>
              phase == if |r.kind.seen| + 1 < r.kind.maxAttempts then Choosing else Over(Forward(R.LastError(m)), None)
  {
    AttemptEffect(setup, s, id, outcome, draw, now);
    hide AfterActions, R.JitteredBackoff;
  }

  /** forwardWithRetry on the shared balancer, run alone: its picks and reports are those of its events. */
  method ForwardOn(b: Balancer, ghost setup: Setup, ghost id: nat, httpMethod: string, retry: Option<R.RetryConfig>,
                   clocks: seq<seq<int>>, outcomes: seq<R.Outcome>, ghost draws: seq<real>, times: seq<int>)
    returns (exit: R.Exit, ghost after: Request, ghost events: seq<Event>)
    requires Fits(setup, b)
    requires |clocks| == |outcomes| == |draws| == |times| == R.MaxAttempts(retry, httpMethod)
    requires forall i :: 0 <= i < |clocks| ==> |clocks[i]| == |b.targets|
    modifies b
    ensures Fits(setup, b)
    ensures View(b, map[id := after]) == From(setup, old(View(b, map[])), [HttpBegins(id, httpMethod, retry)] + events)
    ensures after.phase.Over? && after.phase.exit == Forward(exit)
  {
    hide Step;
    var maxAttempts := R.MaxAttempts(retry, httpMethod);
    ghost var s0 := View(b, map[]);
    after := Request(Http(maxAttempts, if retry.Some? then retry.value.backoffMs else 0, []), Choosing);
    Begun(setup, s0, id, httpMethod, retry);
    var attempt := 1;
    ghost var begun := [HttpBegins(id, httpMethod, retry)];
    events := [];
    assert begun + events == begun;
    while true
      invariant 1 <= attempt <= maxAttempts && Fits(setup, b) && |b.targets| == |old(b.targets)|
      invariant after.phase.Choosing? && after.kind.Http? && after.kind.maxAttempts == maxAttempts
          && |after.kind.seen| + 1 == attempt
      invariant View(b, map[id := after]) == From(setup, s0, begun + events)
      decreases maxAttempts - attempt
    {
      ghost var more;
      var ended;
      ended, after, more :=
        Attempt(b, setup, id, after.kind, attempt, maxAttempts, clocks[attempt - 1], outcomes[attempt - 1],
            draws[attempt - 1], times[attempt - 1]);
      FromSplits(setup, s0, begun + events, more);
      assert begun + (events + more) == begun + events + more;
      events := events + more;
      if ended.Some? { return ended.value, after, events; }
      attempt := attempt + 1;
    }
  }

  lemma Begun(setup: Setup, s: Pool, id: nat, httpMethod: string, retry: Option<R.RetryConfig>)
    requires s.requests == map[]
    ensures From(setup, s, [HttpBegins(id, httpMethod, retry)])
         == s.(requests := map[id := Request(Http(R.MaxAttempts(retry, httpMethod), if retry.Some?
             then retry.value.backoffMs else 0, []), Choosing)])
  {
    FromOne(setup, s, HttpBegins(id, httpMethod, retry));
  }

  lemma EndingEffect(setup: Setup, s: Pool, id: nat, handshake: Handshake, now: int)
    requires Is(s, id, false)
    ensures var s', url := Step(setup, s, Ending(id, handshake, now)), s.targets[s.requests[id].phase.index].url;
            && s'.cursor == s.cursor && id in s'.requests && s'.requests == s.requests[id := s'.requests[id]]
            && match handshake
               case ClientLeaves =>
                 s'.targets == s.targets && s'.requests[id].phase
                     == Over(ClientAborted, Some(s.requests[id].phase.index))
               case Breaks =>
                 s'.targets == AfterReport(setup.options, s.targets, url, false, now)
                     && s'.requests[id].phase == Over(Failed, None)
               case Rejects(code) =>
                 && s'.targets == AfterReport(setup.options, s.targets, url, code < 500, now)
                 && s'.requests[id].phase == Over(Rejected(code), None)
               case Accepts =>
                 s'.targets == AfterReport(setup.options, s.targets, url, true, now)
                     && s'.requests[id].phase == Over(Opened, None)
  {
    hide AfterReport;
  }

  /** How the handshake with the upstream ends. */
  datatype Handshake = Accepts | Rejects(statusCode: int) | Breaks | ClientLeaves

  function Ending(id: nat, handshake: Handshake, now: int): Event {
    match handshake
    case Accepts => UpgradeOpens(id, now)
    case Rejects(code) => UpgradeRejected(id, code, now)
    case Breaks => UpgradeFails(id, now)
    case ClientLeaves => ClientAborts(id)
  }

  /** proxyWebSocket from its pick on, run alone: it reports on every exit but the client's abort. */
  method ProxyUpgrade(b: Balancer, ghost setup: Setup, ghost id: nat, clock: seq<int>, handshake: Handshake, now: int)
    returns (exit: Exit, ghost after: Request, ghost events: seq<Event>)
    requires Fits(setup, b) && |clock| == |b.targets|
    modifies b
    ensures Fits(setup, b)
    ensures exit == NoTarget ==> events == [Picks(id, clock, None)]
    ensures exit != NoTarget ==> exists p :: events == [Picks(id, clock, Some(p)), Ending(id, handshake, now)]
    ensures View(b, map[id := after]) == From(setup, old(View(b, map[id := Request(Upgrade, Choosing)])), events)
    ensures after.phase.Over? && after.phase.exit == exit && (after.phase.left.Some? <==> exit == ClientAborted)
  {
    hide Reported, Availability, IsPick, Chosen, AfterReport;
    ghost var s := View(b, map[id := Request(Upgrade, Choosing)]);
    var url, pick := b.PickTarget(clock);
    ghost var s1 := Step(setup, s, Picks(id, clock, pick));
    FromOne(setup, s, Picks(id, clock, pick));
    if url.None? {
      after, events := Request(Upgrade, Over(NoTarget, None)), [Picks(id, clock, pick)];
      assert s1.requests == map[id := after];
      return NoTarget, after, events;
    }
    assert s1.requests == map[id := Request(Upgrade, Holding(pick.value))];
    PickedUrl(setup, s, id, clock, pick);
    assert View(b, s1.requests) == s1;
    ghost var s2 := Step(setup, s1, Ending(id, handshake, now));
    FromTwo(setup, s, Picks(id, clock, pick), Ending(id, handshake, now));
    hide Step, Ending;
    EndingEffect(setup, s1, id, handshake, now);
    after, events := s2.requests[id], [Picks(id, clock, pick), Ending(id, handshake, now)];
    assert s2.requests == map[id := after];
    match handshake {
      case ClientLeaves =>
        exit := ClientAborted;
      case Breaks =>
        b.Report(url.value, false, now);
        exit := Failed;
        assert View(b, map[id := after]).targets == s2.targets;
      case Rejects(code) =>
        b.Report(url.value, code < 500, now);
        exit := Rejected(code);
        assert View(b, map[id := after]).targets == s2.targets;
      case Accepts =>
        b.Report(url.value, true, now);
        exit := Opened;
        assert View(b, map[id := after]).targets == s2.targets;
    }
  }
}
