/** Half-open trial slots over every interleaving of the requests on a pool. */
module TrialSlots {
  import opened Common
  import C = CircuitBreaking
  import opened Balancing
  import opened RequestPools
  import R = Retrying

  // -------------------------------------------------------------- invariants

  predicate FirstWithUrl(targets: seq<Target>, i: nat)
    requires i < |targets|
  {
    forall j :: 0 <= j < i ==> targets[j].url != targets[i].url
  }

  /** The request picked target i and has not reported that pick - not yet, or never. */
  predicate Unreported(s: Pool, id: nat, i: nat) {
    id in s.requests && (s.requests[id].phase == Holding(i)
        || (s.requests[id].phase.Over? && s.requests[id].phase.left == Some(i)))
  }

  predicate BreakerOk(o: C.Options, b: C.Breaker) {
    (b.state.Closed? <==> b.consecutiveFailures < o.failureThreshold)
        && (b.state.HalfOpen? <==> b.halfOpenTrialInFlight)
  }

  predicate HalfOpenAt(s: Pool, i: nat) {
    i < |s.targets| && s.targets[i].breaker.Some? && s.targets[i].breaker.value.state.HalfOpen?
  }

  /** A target sharing its URL with an earlier one never hears a report, so its breaker stays in its first state. */
  ghost predicate TargetOk(setup: Setup, s: Pool, i: nat)
  {
    && i < |s.targets| == |setup.urls|
    && var t := s.targets[i];
    && t.url == setup.urls[i] && t.breaker.Some? == setup.withBreaker && (!setup.healthChecks ==> t.healthy)
    && (t.breaker.Some?
        ==> BreakerOk(setup.options, t.breaker.value) && (!FirstWithUrl(s.targets, i) ==> t.breaker.value == C.FRESH))
    && (HalfOpenAt(s, i) ==> exists id :: Unreported(s, id, i))
  }

  predicate RequestOk(n: nat, r: Request) {
    && (r.phase.Holding? ==> r.phase.index < n)
    && (r.phase.Over? && r.phase.left.Some? ==>
          r.phase.left.value < n && (r.phase.exit == ClientAborted || r.phase.exit == Forward(R.BodyTooLargeError)))
    && (r.kind.Http? && !r.phase.Over? ==> |r.kind.seen| < r.kind.maxAttempts)
  }

  ghost predicate PoolOk(setup: Setup, s: Pool) {
    && |s.targets| == |setup.urls| && (|s.targets| > 0 ==> s.cursor < |s.targets|)
    && (forall i :: 0 <= i < |s.targets| ==> TargetOk(setup, s, i))
    && (forall id :: id in s.requests ==> RequestOk(|s.targets|, s.requests[id]))
  }

  lemma RequestsStep(setup: Setup, s: Pool, e: Event)
    requires PoolOk(setup, s)
    ensures var s' := Step(setup, s, e);
            && |s'.targets| == |setup.urls| && (|s'.targets| > 0 ==> s'.cursor < |s'.targets|)
            && (forall id :: id in s'.requests ==> RequestOk(|s'.targets|, s'.requests[id]))
            && (forall i :: 0 <= i < |s'.targets| ==> s'.targets[i].url == s.targets[i].url)
  {
    hide TargetOk, AfterAttempt, AfterPick, AfterReport;
    if Enabled(setup, s, e) {
      match e {
        case Picks(id, clock, pick) => PickEffect(setup, s, id, clock, pick);
        case Forwarded(id, outcome, draw, now) => AttemptEffect(setup, s, id, outcome, draw, now);
        case _ =>
      }
    }
  }

  /** A pick moves the cursor and puts its request in charge of the target. */
  lemma PickEffect(setup: Setup, s: Pool, id: nat, clock: seq<int>, pick: Option<nat>)
    requires Enabled(setup, s, Picks(id, clock, pick)) && |s.targets| == |setup.urls|
    requires RequestOk(|s.targets|, s.requests[id])
    ensures var s' := AfterPick(setup, s, id, clock, pick);
            && |s'.targets| == |s.targets| && (|s'.targets| > 0 ==> s'.cursor < |s'.targets|)
            && id in s'.requests && s'.requests == s.requests[id := s'.requests[id]]
            && RequestOk(|s'.targets|, s'.requests[id]) && s'.requests[id].phase.Choosing? == false
            && (pick.Some? ==> pick.value < |s.targets| && s'.requests[id].phase == Holding(pick.value))
            && (forall i :: 0 <= i < |s.targets| ==> s'.targets[i].url == s.targets[i].url)
            && (forall i :: 0 <= i < |s.targets| && pick != Some(i) ==> s'.targets[i] == s.targets[i])
  {
    hide C.CanRequest;
  }

  /** An event that carries no report and no pick of target i leaves i and its holders alone. */
  lemma TargetKept(setup: Setup, s: Pool, s': Pool, i: nat, id: nat)
    requires PoolOk(setup, s) && i < |s.targets| == |s'.targets|
        && s'.targets[i] == s.targets[i].(healthy := s'.targets[i].healthy)
    requires forall j :: 0 <= j < |s.targets| ==> s'.targets[j].url == s.targets[j].url
    requires !setup.healthChecks ==> s'.targets[i].healthy
    requires forall x :: x != id && x in s.requests ==> x in s'.requests && s'.requests[x] == s.requests[x]
    requires Unreported(s, id, i) && HalfOpenAt(s, i) ==> Unreported(s', id, i)
    ensures TargetOk(setup, s', i)
  {
    assert TargetOk(setup, s, i);
    if HalfOpenAt(s', i) {
      var x :| Unreported(s, x, i);
      assert Unreported(s', x, i);
    }
  }

  /** A report reaches the first target with the URL and takes it out of half-open; it leaves every other alone. */
  lemma TargetReported(setup: Setup, s: Pool, s': Pool, i: nat, id: nat, url: string, success: bool, now: int)
    requires PoolOk(setup, s) && i < |s.targets|
        && s'.targets == AfterReport(setup.options, s.targets, url, success, now)
    requires id in s.requests && s.requests[id].phase.Holding? && url == s.targets[s.requests[id].phase.index].url
    requires forall x :: x != id && x in s.requests ==> x in s'.requests && s'.requests[x] == s.requests[x]
    ensures TargetOk(setup, s', i)
  {
    hide C.RecordSuccess, C.RecordFailure, C.FRESH;
    assert TargetOk(setup, s, i);
    var t := s.targets[i];
    if t.breaker.Some? && t.url == url && FirstWithUrl(s.targets, i) {
      ReportKeepsBreaker(setup.options, t.breaker.value, success, now);
      assert FirstWithUrl(s'.targets, i);
    } else {
      assert s'.targets[i] == t;
      if HalfOpenAt(s, i) {
        HalfOpenIsFirst(setup, s, i);
        assert !Unreported(s, id, i);
      }
      TargetKept(setup, s, s', i, id);
    }
  }

  lemma HalfOpenIsFirst(setup: Setup, s: Pool, i: nat)
    requires PoolOk(setup, s) && HalfOpenAt(s, i)
    ensures FirstWithUrl(s.targets, i)
  {
    assert TargetOk(setup, s, i);
  }

  lemma ReportKeepsBreaker(o: C.Options, b: C.Breaker, success: bool, now: int)
    requires BreakerOk(o, b)
    ensures var b' := if success then C.RecordSuccess(b)
        else C.RecordFailure(o, b, now); BreakerOk(o, b') && !b'.state.HalfOpen?
  {
    C.ReportReleasesTrial(o, b, if success then C.Success else C.Failure(now));
  }

  lemma PickKeepsBreaker(o: C.Options, b: C.Breaker, now: int)
    requires BreakerOk(o, b) && C.CanRequest(o, b, now).1
    ensures BreakerOk(o, C.CanRequest(o, b, now).0) && (b == C.FRESH ==> C.CanRequest(o, b, now).0 == C.FRESH)
  {}

  lemma TargetPicked(setup: Setup, s: Pool, id: nat, clock: seq<int>, pick: Option<nat>, i: nat)
    requires PoolOk(setup, s) && Enabled(setup, s, Picks(id, clock, pick)) && i < |s.targets|
    ensures TargetOk(setup, AfterPick(setup, s, id, clock, pick), i)
  {
    hide C.CanRequest;
    var s' := AfterPick(setup, s, id, clock, pick);
    PickEffect(setup, s, id, clock, pick);
    assert TargetOk(setup, s, i);
    if pick == Some(i) {
      var t := s.targets[i];
      assert Available(setup.options, t, clock[i]);
      if t.breaker.Some? { PickKeepsBreaker(setup.options, t.breaker.value, clock[i]); }
      assert Unreported(s', id, i);
      assert FirstWithUrl(s'.targets, i) <==> FirstWithUrl(s.targets, i);
    } else {
      TargetKept(setup, s, s', i, id);
    }
  }

  lemma TargetStep(setup: Setup, s: Pool, e: Event, i: nat)
    requires PoolOk(setup, s) && i < |s.targets|
    ensures |Step(setup, s, e).targets| == |s.targets| && TargetOk(setup, Step(setup, s, e), i)
  {
    hide PoolOk, TargetOk, AfterAttempt, AfterPick, AfterReport, Unreported, HalfOpenAt;
    RequestsStep(setup, s, e);
    TargetNow(setup, s, i);
    var s' := Step(setup, s, e);
    if Enabled(setup, s, e) {
      match e {
        case Picks(id, clock, pick) => TargetPicked(setup, s, id, clock, pick, i);
        case Forwarded(id, outcome, draw, now) => TargetAttempted(setup, s, id, outcome, draw, now, i);
        case UpgradeOpens(id, now) => TargetReported(setup, s, s', i, id, s.targets[s.requests[id].phase.index].url,
            true, now);
        case UpgradeRejected(id, code, now) =>
          TargetReported(setup, s, s', i, id, s.targets[s.requests[id].phase.index].url, code < 500, now);
        case UpgradeFails(id, now) => TargetReported(setup, s, s', i, id, s.targets[s.requests[id].phase.index].url,
            false, now);
        case ClientAborts(id) => AbortHolds(s, id, i); TargetKept(setup, s, s', i, id);
        case HttpBegins(id, _, _) => NewHoldsNothing(s, id, i); TargetKept(setup, s, s', i, id);
        case UpgradeBegins(id) => NewHoldsNothing(s, id, i); TargetKept(setup, s, s', i, id);
        case HealthChanges(_, _) => NewHoldsNothing(s, FreeId(s), i); TargetKept(setup, s, s', i, FreeId(s));
      }
    }
  }

  lemma TargetNow(setup: Setup, s: Pool, i: nat)
    requires PoolOk(setup, s) && i < |s.targets|
    ensures |s.targets| == |setup.urls| && TargetOk(setup, s, i) && (!setup.healthChecks ==> s.targets[i].healthy)
  {}

  lemma AbortHolds(s: Pool, id: nat, i: nat)
    requires id in s.requests && s.requests[id].phase.Holding?
    ensures var r := s.requests[id];
            Unreported(s, id, i) ==> Unreported(s.(requests := s.requests[id := r.(phase := Over(ClientAborted,
                Some(r.phase.index)))]), id, i)
  {}

  lemma NewHoldsNothing(s: Pool, id: nat, i: nat)
    requires id !in s.requests
    ensures !Unreported(s, id, i)
  {}

  ghost function FreeId(s: Pool): (id: nat)
    ensures id !in s.requests
  {
    FreeIdExists(s);
    var id :| id !in s.requests;
    id
  }

  lemma FreeIdExists(s: Pool)
    ensures exists id: nat :: id !in s.requests
  {
    var bound := Unused(s.requests.Keys);
    assert forall i :: i in s.requests ==> i in s.requests.Keys;
    assert bound !in s.requests;
  }

  lemma TargetAttempted(setup: Setup, s: Pool, id: nat, outcome: R.Outcome, draw: real, now: int, i: nat)
    requires PoolOk(setup, s) && Is(s, id, true) && i < |s.targets|
    ensures TargetOk(setup, AfterAttempt(setup, s, id, outcome, draw, now), i)
  {
    hide AfterAttempt, AfterReport, TargetOk;
    AttemptEffect(setup, s, id, outcome, draw, now);
    var s', url := AfterAttempt(setup, s, id, outcome, draw, now), s.targets[s.requests[id].phase.index].url;
    match outcome {
      case Response(code) => TargetReported(setup, s, s', i, id, url, code < 500, now);
      case ConnectionError(_) => TargetReported(setup, s, s', i, id, url, false, now);
      case BodyTooLarge => TargetNow(setup, s, i); TargetKept(setup, s, s', i, id);
    }
  }

  lemma StepKeepsPool(setup: Setup, s: Pool, e: Event)
    requires PoolOk(setup, s)
    ensures PoolOk(setup, Step(setup, s, e))
  {
    hide Step, TargetOk, RequestOk;
    RequestsStep(setup, s, e);
    forall i | 0 <= i < |s.targets| ensures |Step(setup, s, e).targets| == |s.targets|
        && TargetOk(setup, Step(setup, s, e), i) {
      TargetStep(setup, s, e, i);
    }
  }

  lemma {:induction false} RunKeepsPool(setup: Setup, s: Pool, h: seq<Event>)
    requires PoolOk(setup, s)
    ensures PoolOk(setup, From(setup, s, h))
  {
    hide Step, PoolOk;
    if |h| > 0 {
      RunKeepsPool(setup, s, Front(h));
      StepKeepsPool(setup, From(setup, s, Front(h)), Last(h));
    }
  }

  lemma ReachableOk(setup: Setup, h: seq<Event>)
    ensures PoolOk(setup, After(setup, h))
  {
    hide Step;
    RunKeepsPool(setup, Start(setup), h);
  }

  // ------------------------------------------------------------------ holding

  /**
   On every interleaving of retry loops, upgrades, reports and health changes,
   and whatever URLs repeat, a half-open target is held by a pick of that very
   target that is unreported.
   */
  lemma TrialIsHeld(setup: Setup, h: seq<Event>, i: nat)
    requires HalfOpenAt(After(setup, h), i)
    ensures exists id :: Unreported(After(setup, h), id, i)
    ensures After(setup, h).targets[i].breaker.value.halfOpenTrialInFlight
  {
    hide After;
    ReachableOk(setup, h);
    assert TargetOk(setup, After(setup, h), i);
  }

  /**
   Once all requests are over, and no retry loop ended in a BodyTooLargeError
   and no client aborted during an upgrade, no breaker is half-open.
   */
  lemma NoLeakNoHeldSlot(setup: Setup, h: seq<Event>, i: nat)
    requires var s := After(setup, h);
             forall id :: id in s.requests ==>
               && s.requests[id].phase.Over?
               && s.requests[id].phase.exit != Forward(R.BodyTooLargeError)
                  && s.requests[id].phase.exit != ClientAborted
    ensures !HalfOpenAt(After(setup, h), i)
  {
    hide After;
    ReachableOk(setup, h);
    var s := After(setup, h);
    assert forall id :: id in s.requests ==> RequestOk(|s.targets|, s.requests[id]);
    assert forall id :: !Unreported(s, id, i);
    if HalfOpenAt(s, i) { TrialIsHeld(setup, h, i); }
  }
}
