/**
 Requests in flight on one route's pool of targets: any number of
 forwardWithRetry calls, each stepping through its own attempts, and WebSocket
 upgrades, all on one balancer whose breakers they pick from and report to. A
 pick is known by its index here; the code reports by URL.
 */
module RequestPools {
  import opened Common
  import opened CircuitBreaking
  import opened Balancing
  import R = Retrying

  datatype Setup = Setup(urls: seq<string>, withBreaker: bool, options: Options, healthChecks: bool)

  datatype Exit =
    | Forward(exit: R.Exit)
    | Opened
    | Rejected(statusCode: int)
    | Failed
    | ClientAborted
    | NoTarget

  /** `left` is the target whose pick was never reported, if there is one. */
  datatype Phase = Choosing | Holding(index: nat) | Over(exit: Exit, left: Option<nat>)

  /** A retry loop has its bounds and the attempts it has seen; an upgrade makes a single one. */
  datatype Kind = Http(maxAttempts: nat, backoffMs: int, seen: seq<R.Attempt>) | Upgrade

  datatype Request = Request(kind: Kind, phase: Phase)

  datatype Pool = Pool(targets: seq<Target>, cursor: nat, requests: map<nat, Request>)

  datatype Event =
    | HttpBegins(id: nat, httpMethod: string, retry: Option<R.RetryConfig>)
    | UpgradeBegins(id: nat)
    | Picks(id: nat, clock: seq<int>, pick: Option<nat>)
    | Forwarded(id: nat, outcome: R.Outcome, draw: real, now: int)
    | UpgradeOpens(id: nat, now: int)
    | UpgradeRejected(id: nat, statusCode: int, now: int)
    | UpgradeFails(id: nat, now: int)
    | ClientAborts(id: nat)
    | HealthChanges(index: nat, healthy: bool)

  function Start(setup: Setup): Pool {
    Pool(seq(|setup.urls|, i requires 0 <= i < |setup.urls| =>
               Target(setup.urls[i], true, if setup.withBreaker then Some(FRESH) else None)), 0, map[])
  }

  /** What one report by URL does to the whole list. */
  ghost function AfterReport(o: Options, targets: seq<Target>, url: string, success: bool,
      now: int): (after: seq<Target>)
    ensures |after| == |targets| && forall i ::
        0 <= i < |targets| ==> after[i] == Reported(o, targets, i, url, success, now)
  {
    seq(|targets|, i requires 0 <= i < |targets| => Reported(o, targets, i, url, success, now))
  }

  /** The reports among a retry attempt's actions, carried out. */
  ghost function AfterActions(o: Options, targets: seq<Target>, actions: seq<R.Action>, now: int): seq<Target>
    decreases |actions|
  {
    if |actions| == 0 then targets
    else
      var first := match actions[0]
                   case ReportSuccess(url) => AfterReport(o, targets, url, true, now)
                   case ReportFailure(url) => AfterReport(o, targets, url, false, now)
                   case _ => targets;
      AfterActions(o, first, actions[1..], now)
  }

  predicate Reports(actions: seq<R.Action>) {
    exists a :: a in actions && (a.ReportSuccess? || a.ReportFailure?)
  }

  predicate Is(s: Pool, id: nat, http: bool) {
    id in s.requests && s.requests[id].kind.Http? == http && s.requests[id].phase.Holding?
        && s.requests[id].phase.index < |s.targets|
  }

  ghost predicate Enabled(setup: Setup, s: Pool, e: Event) {
    match e
    case HttpBegins(id, _, _) => id !in s.requests
    case UpgradeBegins(id) => id !in s.requests
    case Picks(id, clock, pick) =>
      && id in s.requests && s.requests[id].phase.Choosing? && |clock| == |s.targets|
         && (|s.targets| > 0 ==> s.cursor < |s.targets|)
      && IsPick(Availability(setup.options, s.targets, clock), s.cursor, pick)
    case Forwarded(id, _, _, _) => Is(s, id, true)
    case UpgradeOpens(id, _) => Is(s, id, false)
    case UpgradeRejected(id, _, _) => Is(s, id, false)
    case UpgradeFails(id, _) => Is(s, id, false)
    case ClientAborts(id) => Is(s, id, false)
    case HealthChanges(index, _) => setup.healthChecks && index < |s.targets|
  }

  /** A pick settled with a report to its URL. */
  ghost function Settled(setup: Setup, s: Pool, id: nat, success: bool, now: int, exit: Exit): Pool
    requires id in s.requests && s.requests[id].phase.Holding? && s.requests[id].phase.index < |s.targets|
  {
    var r := s.requests[id];
    s.(targets := AfterReport(setup.options, s.targets, s.targets[r.phase.index].url, success, now),
       requests := s.requests[id := r.(phase := Over(exit, None))])
  }

  /** One attempt of a retry loop, as the loop itself is modelled. */
  ghost function AfterAttempt(setup: Setup, s: Pool, id: nat, outcome: R.Outcome, draw: real, now: int): Pool
    requires Is(s, id, true)
  {
    var r := s.requests[id];
    var a := R.Attempt(Some(s.targets[r.phase.index].url), outcome, draw);
    var (actions, exit) := R.AttemptActions(a, |r.kind.seen| + 1, r.kind.maxAttempts, r.kind.backoffMs);
    var left := if Reports(actions) then None else Some(r.phase.index);
    s.(targets := AfterActions(setup.options, s.targets, actions, now),
       requests := s.requests[id := Request(r.kind.(seen := r.kind.seen + [a]),
                                            if exit.Some? then Over(Forward(exit.value), left) else Choosing)])
  }

  ghost function AfterPick(setup: Setup, s: Pool, id: nat, clock: seq<int>, pick: Option<nat>): Pool
    requires Enabled(setup, s, Picks(id, clock, pick))
  {
    var r := s.requests[id];
    if pick.None? then
      var nothing := R.Attempt(None, R.BodyTooLarge, 0.0);
      s.(requests := s.requests[id := if r.kind.Upgrade? then r.(phase := Over(NoTarget, None))
                                      else Request(r.kind.(seen := r.kind.seen + [nothing]),
                                          Over(Forward(R.NoHealthyTarget), None))])
    else
      var p := pick.value;
      Pool(s.targets[p := Chosen(setup.options, s.targets[p], clock[p])], Advance(|s.targets|, s.cursor, pick),
           s.requests[id := r.(phase := Holding(p))])
  }

  ghost function Step(setup: Setup, s: Pool, e: Event): Pool {
    if !Enabled(setup, s, e) then s
    else
      match e
      case HttpBegins(id, httpMethod, retry) =>
        var kind := Http(R.MaxAttempts(retry, httpMethod), if retry.Some? then retry.value.backoffMs else 0, []);
        s.(requests := s.requests[id := Request(kind, Choosing)])
      case UpgradeBegins(id) => s.(requests := s.requests[id := Request(Upgrade, Choosing)])
      case Picks(id, clock, pick) => AfterPick(setup, s, id, clock, pick)
      case Forwarded(id, outcome, draw, now) => AfterAttempt(setup, s, id, outcome, draw, now)
      case UpgradeOpens(id, now) => Settled(setup, s, id, true, now, Opened)
      case UpgradeRejected(id, code, now) => Settled(setup, s, id, code < 500, now, Rejected(code))
      case UpgradeFails(id, now) => Settled(setup, s, id, false, now, Failed)
      case ClientAborts(id) =>
        var r := s.requests[id];
        s.(requests := s.requests[id := r.(phase := Over(ClientAborted, Some(r.phase.index)))])
      case HealthChanges(index, healthy) => s.(targets := s.targets[index := s.targets[index].(healthy := healthy)])
  }

  ghost function From(setup: Setup, s: Pool, h: seq<Event>): Pool {
    if |h| == 0 then s else Step(setup, From(setup, s, Front(h)), Last(h))
  }

  ghost function After(setup: Setup, h: seq<Event>): Pool {
    From(setup, Start(setup), h)
  }

  lemma {:induction false} FromSplits(setup: Setup, s: Pool, h: seq<Event>, z: seq<Event>)
    ensures From(setup, s, h + z) == From(setup, From(setup, s, h), z)
  {
    hide Step;
    if |z| == 0 {
      assert h + z == h;
    } else {
      assert Front(h + z) == h + Front(z);
      FromSplits(setup, s, h, Front(z));
    }
  }

  lemma FromOne(setup: Setup, s: Pool, e: Event)
    ensures From(setup, s, [e]) == Step(setup, s, e)
  {
    hide Step;
    assert Front([e]) == [];
  }

  lemma FromTwo(setup: Setup, s: Pool, a: Event, b: Event)
    ensures From(setup, s, [a, b]) == Step(setup, Step(setup, s, a), b)
  {
    hide Step;
    FromOne(setup, s, a);
    assert Front([a, b]) == [a];
  }

  // ------------------------------------------------------------- one attempt

  /** What a retry attempt does to the list, case by case. */
  lemma AttemptEffect(setup: Setup, s: Pool, id: nat, outcome: R.Outcome, draw: real, now: int)
    requires Is(s, id, true)
    ensures var r, s' := s.requests[id], AfterAttempt(setup, s, id, outcome, draw, now);
            var url, r' := s.targets[r.phase.index].url, AfterAttempt(setup, s, id, outcome, draw, now).requests[id];
            && s'.cursor == s.cursor && s'.requests == s.requests[id := r'] && r'.kind.Http?
            && s'.targets == (match outcome
                              case Response(code) => AfterReport(setup.options, s.targets, url, code < 500, now)
                              case BodyTooLarge => s.targets
                              case ConnectionError(_) => AfterReport(setup.options, s.targets, url, false, now))
            && (outcome.BodyTooLarge? <==> r'.phase == Over(Forward(R.BodyTooLargeError), Some(r.phase.index)))
            && (r'.phase.Choosing? || (r'.phase.Over? && (r'.phase.left.Some? <==> outcome.BodyTooLarge?)))
            && (r'.phase.Over? ==> r'.phase.exit.Forward?)
            && (r'.phase.Choosing? ==> |r.kind.seen| + 1 < r.kind.maxAttempts)
            && r'.kind == r.kind.(seen := r.kind.seen + [R.Attempt(Some(url), outcome, draw)])
  {
    hide R.JitteredBackoff, AfterReport;
    var r := s.requests[id];
    var url := s.targets[r.phase.index].url;
    var a := R.Attempt(Some(url), outcome, draw);
    var actions := R.AttemptActions(a, |r.kind.seen| + 1, r.kind.maxAttempts, r.kind.backoffMs).0;
    ActionsOfFew(setup.options, s.targets, actions, now);
    assert |actions| > 2 ==> actions[2] in actions;
  }

  /** At most four actions, the report, if there is one, the third. */
  lemma ActionsOfFew(o: Options, targets: seq<Target>, actions: seq<R.Action>, now: int)
    requires 2 <= |actions| <= 4 && actions[0].Pick? && actions[1].Forward?
    requires |actions| > 2 ==> actions[2].ReportSuccess? || actions[2].ReportFailure?
    requires |actions| > 3 ==> actions[3].Sleep?
    ensures AfterActions(o, targets, actions, now)
         == if |actions| == 2 then targets
            else if actions[2].ReportSuccess? then AfterReport(o, targets, actions[2].target, true, now)
            else AfterReport(o, targets, actions[2].target, false, now)
  {
    hide AfterReport;
    var rest := actions[2..];
    assert actions[1..][1..] == rest;
    assert AfterActions(o, targets, actions, now) == AfterActions(o, targets, actions[1..], now)
        == AfterActions(o, targets, rest, now);
    if |actions| > 2 {
      var reported := AfterReport(o, targets, actions[2].target, actions[2].ReportSuccess?, now);
      assert AfterActions(o, targets, rest, now) == AfterActions(o, reported, rest[1..], now);
      NoReportNoEffect(o, reported, rest[1..], now);
    }
  }

  lemma {:induction false} NoReportNoEffect(o: Options, targets: seq<Target>, actions: seq<R.Action>, now: int)
    requires forall i :: 0 <= i < |actions| ==> !actions[i].ReportSuccess? && !actions[i].ReportFailure?
    ensures AfterActions(o, targets, actions, now) == targets
    decreases |actions|
  {
    if |actions| > 0 { NoReportNoEffect(o, targets, actions[1..], now); }
  }
}
