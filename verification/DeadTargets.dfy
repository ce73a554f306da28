/** When an unreported pick costs a target for good. */
module DeadTargets {
  import opened Common
  import C = CircuitBreaking
  import opened Balancing
  import opened RequestPools
  import opened TrialSlots
  import R = Retrying

  /** The target's breaker would let a request through. */
  predicate Admits(setup: Setup, s: Pool, i: nat, now: int) {
    i < |s.targets| && (s.targets[i].breaker.None? || C.CanRequest(setup.options, s.targets[i].breaker.value, now).1)
  }

  /** Nothing that may still happen ever makes the breaker let a request through. */
  ghost predicate Dead(setup: Setup, s: Pool, i: nat) {
    forall z, now :: !Admits(setup, From(setup, s, z), i, now)
  }

  predicate HoldsUrl(s: Pool, id: nat, url: string) {
    && id in s.requests && s.requests[id].phase.Holding? && s.requests[id].phase.index < |s.targets|
    && s.targets[s.requests[id].phase.index].url == url
  }

  ghost predicate InFlightOn(s: Pool, url: string) {
    exists id :: HoldsUrl(s, id, url)
  }

  predicate Twins(s: Pool, i: nat, j: nat) {
    i < |s.targets| && j < |s.targets| && i != j && s.targets[i].url == s.targets[j].url
  }

  ghost predicate HasTwin(s: Pool, i: nat) {
    exists j :: Twins(s, i, j)
  }

  // --------------------------------------------------------- what stays dead

  ghost predicate Doomed(s: Pool, i: nat) {
    HalfOpenAt(s, i) && !InFlightOn(s, s.targets[i].url) && !HasTwin(s, i)
  }

  lemma HalfOpenAdmitsNothing(setup: Setup, s: Pool, i: nat, now: int)
    requires PoolOk(setup, s) && HalfOpenAt(s, i)
    ensures !Admits(setup, s, i, now) && !Available(setup.options, s.targets[i], now)
  {
    assert TargetOk(setup, s, i);
  }

  /** Requests other than `id` hold what they held; `id` holds nothing with the URL. */
  lemma DoomedKept(s: Pool, s': Pool, i: nat, id: nat)
    requires Doomed(s, i) && |s'.targets| == |s.targets|
    requires s'.targets[i] == s.targets[i].(healthy := s'.targets[i].healthy)
    requires forall j :: 0 <= j < |s.targets| ==> s'.targets[j].url == s.targets[j].url
    requires forall x :: x != id && x in s'.requests ==> x in s.requests && s'.requests[x] == s.requests[x]
    requires !HoldsUrl(s', id, s.targets[i].url)
    ensures Doomed(s', i)
  {
    if x :| HoldsUrl(s', x, s.targets[i].url) {
      assert HoldsUrl(s, x, s.targets[i].url);
    }
    if j :| Twins(s', i, j) {
      assert Twins(s, i, j);
    }
  }

  /** A report to another URL does not reach target i. */
  lemma DoomedUnreported(setup: Setup, s: Pool, s': Pool, i: nat, id: nat, success: bool, now: int)
    requires PoolOk(setup, s) && Doomed(s, i) && id in s.requests && s.requests[id].phase.Holding?
    requires var url := s.targets[s.requests[id].phase.index].url;
        s'.targets == AfterReport(setup.options, s.targets, url, success, now)
    requires id in s'.requests && s'.requests == s.requests[id := s'.requests[id]] && !s'.requests[id].phase.Holding?
    ensures Doomed(s', i)
  {
    assert RequestOk(|s.targets|, s.requests[id]);
    assert !HoldsUrl(s, id, s.targets[i].url);
    DoomedKept(s, s', i, id);
  }

  lemma DoomedPick(setup: Setup, s: Pool, id: nat, clock: seq<int>, pick: Option<nat>, i: nat)
    requires PoolOk(setup, s) && Doomed(s, i) && Enabled(setup, s, Picks(id, clock, pick))
    ensures Doomed(AfterPick(setup, s, id, clock, pick), i)
  {
    hide TargetOk;
    var s' := AfterPick(setup, s, id, clock, pick);
    PickEffect(setup, s, id, clock, pick);
    HalfOpenAdmitsNothing(setup, s, i, clock[i]);
    assert pick != Some(i);
    assert pick.Some? ==> !Twins(s, i, pick.value);
    DoomedKept(s, s', i, id);
  }

  lemma DoomedStep(setup: Setup, s: Pool, e: Event, i: nat)
    requires PoolOk(setup, s) && Doomed(s, i)
    ensures Doomed(Step(setup, s, e), i)
  {
    hide Doomed, AfterAttempt, AfterPick, AfterReport, TargetOk;
    var s' := Step(setup, s, e);
    DoomedInRange(s, i);
    if Enabled(setup, s, e) {
      match e {
        case Picks(id, clock, pick) => DoomedPick(setup, s, id, clock, pick, i);
        case Forwarded(id, outcome, draw, now) =>
          AttemptEffect(setup, s, id, outcome, draw, now);
          match outcome {
            case Response(code) => DoomedUnreported(setup, s, s', i, id, code < 500, now);
            case ConnectionError(_) => DoomedUnreported(setup, s, s', i, id, false, now);
            case BodyTooLarge => DoomedKept(s, s', i, id);
          }
        case UpgradeOpens(id, now) => DoomedUnreported(setup, s, s', i, id, true, now);
        case UpgradeRejected(id, code, now) => DoomedUnreported(setup, s, s', i, id, code < 500, now);
        case UpgradeFails(id, now) => DoomedUnreported(setup, s, s', i, id, false, now);
        case ClientAborts(id) => DoomedKept(s, s', i, id);
        case HttpBegins(id, _, _) => DoomedKept(s, s', i, id);
        case UpgradeBegins(id) => DoomedKept(s, s', i, id);
        case HealthChanges(_, _) => DoomedKept(s, s', i, FreeId(s));
      }
    }
  }

  lemma DoomedInRange(s: Pool, i: nat)
    requires Doomed(s, i)
    ensures i < |s.targets|
  {}

  lemma {:induction false} DoomedForever(setup: Setup, s: Pool, z: seq<Event>, i: nat)
    requires PoolOk(setup, s) && Doomed(s, i)
    ensures Doomed(From(setup, s, z), i)
  {
    hide Step, PoolOk, Doomed;
    if |z| > 0 {
      DoomedForever(setup, s, Front(z), i);
      RunKeepsPool(setup, s, Front(z));
      DoomedStep(setup, From(setup, s, Front(z)), Last(z), i);
    }
  }

  // --------------------------------------------------------- what comes back

  /** A closed or an open breaker lets a request through, at once or in time. */
  lemma OthersAdmit(setup: Setup, s: Pool, i: nat)
    requires PoolOk(setup, s) && i < |s.targets| && !HalfOpenAt(s, i)
    ensures exists z, now :: Admits(setup, From(setup, s, z), i, now)
  {
    assert TargetOk(setup, s, i);
    var now := if s.targets[i].breaker.Some? then s.targets[i].breaker.value.openedAt + setup.options.resetTimeoutMs
        else 0;
    assert From(setup, s, []) == s;
    assert Admits(setup, From(setup, s, []), i, now);
  }

  /** A success of any pick with the URL brings a half-open target back. */
  lemma SuccessRevives(setup: Setup, s: Pool, id: nat, i: nat)
    requires PoolOk(setup, s) && HalfOpenAt(s, i) && HoldsUrl(s, id, s.targets[i].url)
    ensures exists e, now :: Admits(setup, Step(setup, s, e), i, now)
  {
    hide AfterAttempt, TargetOk;
    HalfOpenIsFirst(setup, s, i);
    if s.requests[id].kind.Http? {
      AttemptEffect(setup, s, id, R.Response(200), 0.0, 0);
      assert Admits(setup, Step(setup, s, Forwarded(id, R.Response(200), 0.0, 0)), i, 0);
    } else {
      assert Admits(setup, Step(setup, s, UpgradeOpens(id, 0)), i, 0);
    }
  }

  /** Some target is nearest, as soon as one is available. */
  lemma PickExists(avail: seq<bool>, cursor: nat, j: nat) returns (p: nat)
    requires cursor < |avail| && j < |avail| && avail[j]
    ensures IsPick(avail, cursor, Some(p)) && Distance(|avail|, cursor, p) <= Distance(|avail|, cursor, j)
  {
    var n, k := |avail|, 0;
    p := j;
    while k < n
      invariant k <= n && p < n && avail[p]
      invariant Distance(n, cursor, p) <= Distance(n, cursor, j)
      invariant forall x :: 0 <= x < k && avail[x] ==> Distance(n, cursor, p) <= Distance(n, cursor, x)
    {
      if avail[k] && Distance(n, cursor, k) < Distance(n, cursor, p) { p := k; }
      k := k + 1;
    }
  }

  lemma NewPick(setup: Setup, s: Pool, j: nat) returns (id: nat, p: nat, z: seq<Event>)
    requires PoolOk(setup, s) && j < |s.targets| && s.targets[j].healthy
        && (s.targets[j].breaker.None? || s.targets[j].breaker.value == C.FRESH)
    ensures p < |s.targets| && Distance(|s.targets|, s.cursor, p) <= Distance(|s.targets|, s.cursor, j)
    ensures var s' := From(setup, s, z);
            && |s'.targets| == |s.targets| && s'.cursor == Advance(|s.targets|, s.cursor, Some(p))
            && id in s'.requests && s'.requests[id].phase == Holding(p)
            && (forall i :: 0 <= i < |s.targets| && i != p ==> s'.targets[i] == s.targets[i])
  {
    id := FreeId(s);
    var s1 := Step(setup, s, UpgradeBegins(id));
    var clock := seq(|s.targets|, i => 0);
    var avail := Availability(setup.options, s1.targets, clock);
    p := PickExists(avail, s1.cursor, j);
    z := [UpgradeBegins(id), Picks(id, clock, Some(p))];
    FromTwo(setup, s, UpgradeBegins(id), Picks(id, clock, Some(p)));
    hide TargetOk, IsPick, C.CanRequest;
  }

  /** Round robin reaches every target that stays available, without any health change. */
  lemma {:induction false} PickReached(setup: Setup, s: Pool, j: nat) returns (id: nat, z: seq<Event>)
    requires PoolOk(setup, s) && j < |s.targets| && s.targets[j].healthy
        && (s.targets[j].breaker.None? || s.targets[j].breaker.value == C.FRESH)
    ensures var s' := From(setup, s, z);
        |s'.targets| == |s.targets| && id in s'.requests && s'.requests[id].phase == Holding(j)
    decreases Distance(|s.targets|, s.cursor, j)
  {
    hide TargetOk, RequestOk, Step, From;
    var p;
    id, p, z := NewPick(setup, s, j);
    if p != j {
      RunKeepsPool(setup, s, z);
      var s1 := From(setup, s, z);
      DistanceShrinks(|s.targets|, s.cursor, p, j);
      var rest;
      id, rest := PickReached(setup, s1, j);
      FromSplits(setup, s, z, rest);
      z := z + rest;
    }
  }

  lemma DistanceShrinks(n: nat, cursor: nat, p: nat, j: nat)
    requires cursor < n && p < n && j < n && p != j && Distance(n, cursor, p) <= Distance(n, cursor, j)
    ensures Advance(n, cursor, Some(p)) < n && Distance(n, Advance(n, cursor, Some(p)), j) < Distance(n, cursor, j)
  {}

  lemma {:induction false} UrlsStay(setup: Setup, s: Pool, z: seq<Event>)
    requires PoolOk(setup, s)
    ensures |From(setup, s, z).targets| == |s.targets|
    ensures forall i :: 0 <= i < |s.targets| ==> From(setup, s, z).targets[i].url == s.targets[i].url
  {
    RunKeepsPool(setup, s, z);
    forall i | 0 <= i < |s.targets| ensures From(setup, s, z).targets[i].url == s.targets[i].url {
      assert TargetOk(setup, s, i) && TargetOk(setup, From(setup, s, z), i);
    }
  }

  /** A twin hears no report, so it stays closed; picked and successful, it closes the half-open target. */
  lemma TwinRevives(setup: Setup, s: Pool, i: nat, j: nat)
    requires PoolOk(setup, s) && HalfOpenAt(s, i) && Twins(s, i, j)
    ensures exists z, now :: Admits(setup, From(setup, s, z), i, now)
  {
    hide Step, From, TargetOk;
    HalfOpenIsFirst(setup, s, i);
    TwinIsFresh(setup, s, i, j);
    var health: seq<Event> := if s.targets[j].healthy then [] else [HealthChanges(j, true)];
    var s1 := From(setup, s, health);
    Healed(setup, s, j);
    RunKeepsPool(setup, s, health);
    var id, z := PickReached(setup, s1, j);
    RunKeepsPool(setup, s1, z);
    UrlsStay(setup, s, health);
    UrlsStay(setup, s1, z);
    FromSplits(setup, s, health, z);
    var s2 := From(setup, s1, z);
    if HalfOpenAt(s2, i) {
      SuccessRevives(setup, s2, id, i);
      var e, now :| Admits(setup, Step(setup, s2, e), i, now);
      FromOne(setup, s2, e);
      FromSplits(setup, s, health + z, [e]);
      assert Admits(setup, From(setup, s, health + z + [e]), i, now);
    } else {
      OthersAdmit(setup, s2, i);
      var z', now :| Admits(setup, From(setup, s2, z'), i, now);
      FromSplits(setup, s, health + z, z');
      assert Admits(setup, From(setup, s, health + z + z'), i, now);
    }
  }

  lemma TwinIsFresh(setup: Setup, s: Pool, i: nat, j: nat)
    requires PoolOk(setup, s) && HalfOpenAt(s, i) && Twins(s, i, j)
    ensures s.targets[j].breaker == Some(C.FRESH)
    ensures !setup.healthChecks ==> s.targets[j].healthy
  {
    HalfOpenIsFirst(setup, s, i);
    assert TargetOk(setup, s, i) && TargetOk(setup, s, j);
    assert i < j;
    assert !FirstWithUrl(s.targets, j);
  }

  lemma Healed(setup: Setup, s: Pool, j: nat)
    requires PoolOk(setup, s) && j < |s.targets| && (!setup.healthChecks ==> s.targets[j].healthy)
    ensures var z: seq<Event> := if s.targets[j].healthy then [] else [HealthChanges(j, true)];
            From(setup, s, z).targets == s.targets[j := s.targets[j].(healthy := true)]
  {
    if s.targets[j].healthy {
      assert s.targets[j := s.targets[j].(healthy := true)] == s.targets;
    } else {
      FromOne(setup, s, HealthChanges(j, true));
    }
  }

  // ------------------------------------------------------------ the condition

  /**
   At any moment of any run a target is dead for good - no continuation ever
   lets a request through to it - if and only if its breaker is half-open, no
   request in flight holds a pick with its URL, and no other target shares the
   URL.
   */
  lemma DeadExactlyWhen(setup: Setup, h: seq<Event>, i: nat)
    requires i < |setup.urls|
    ensures var s := After(setup, h);
            Dead(setup, s, i) <==> HalfOpenAt(s, i) && !InFlightOn(s, s.targets[i].url) && !HasTwin(s, i)
  {
    hide After, From, Step, TargetOk;
    var s := After(setup, h);
    ReachableOk(setup, h);
    if !HalfOpenAt(s, i) {
      OthersAdmit(setup, s, i);
    } else if Doomed(s, i) {
      forall z, now ensures !Admits(setup, From(setup, s, z), i, now) {
        DoomedForever(setup, s, z, i);
        RunKeepsPool(setup, s, z);
        HalfOpenAdmitsNothing(setup, From(setup, s, z), i, now);
      }
    } else if id :| HoldsUrl(s, id, s.targets[i].url) {
      SuccessRevives(setup, s, id, i);
      var e, now :| Admits(setup, Step(setup, s, e), i, now);
      FromOne(setup, s, e);
      assert Admits(setup, From(setup, s, [e]), i, now);
    } else {
      var j :| Twins(s, i, j);
      TwinRevives(setup, s, i, j);
    }
  }

  /** The event that ends request `id` without a report. */
  predicate Leaks(e: Event, id: nat) {
    e == ClientAborts(id) || (e.Forwarded? && e.id == id && e.outcome.BodyTooLarge?)
  }

  lemma LeakEffect(setup: Setup, s: Pool, id: nat, e: Event)
    requires PoolOk(setup, s) && Leaks(e, id) && Enabled(setup, s, e)
    ensures var s' := Step(setup, s, e);
            && s'.targets == s.targets && id in s'.requests && s'.requests == s.requests[id := s'.requests[id]]
            && s'.requests[id].phase.Over? && s'.requests[id].phase.left == Some(s.requests[id].phase.index)
  {
    hide AfterAttempt, TargetOk;
    if e.Forwarded? { AttemptEffect(setup, s, id, e.outcome, e.draw, e.now); }
  }

  /**
   One oversized body, or one client that aborts during the upgrade, on a
   half-open target that no other request is talking to: the target is dead for
   good, unless another target shares its URL.
   */
  lemma OneLeakKillsATarget(setup: Setup, h: seq<Event>, id: nat, e: Event)
    requires var s := After(setup, h);
             && Enabled(setup, s, e) && Leaks(e, id) && HalfOpenAt(s, s.requests[id].phase.index)
             && forall x :: HoldsUrl(s, x, s.targets[s.requests[id].phase.index].url) ==> x == id
    ensures var s, i := After(setup, h), After(setup, h).requests[id].phase.index;
            Dead(setup, After(setup, h + [e]), i) <==> !HasTwin(s, i)
  {
    hide After, From, Step, TargetOk, Dead;
    var s := After(setup, h);
    var i := s.requests[id].phase.index;
    ReachableOk(setup, h);
    AfterOneMore(setup, h, e);
    LeakEffect(setup, s, id, e);
    var s' := After(setup, h + [e]);
    DeadExactlyWhen(setup, h + [e], i);
    assert forall x :: HoldsUrl(s', x, s.targets[i].url) ==> HoldsUrl(s, x, s.targets[i].url);
    assert forall j :: Twins(s', i, j) <==> Twins(s, i, j);
  }

  lemma AfterOneMore(setup: Setup, h: seq<Event>, e: Event)
    ensures After(setup, h + [e]) == Step(setup, After(setup, h), e)
  {
    hide Step;
    assert Front(h + [e]) == h;
  }

  // --------------------------------------------------- it happens, always

  /** k upgrades in turn on the only target, all failing at time 0. */
  function Failures(k: nat): seq<Event> {
    if k == 0 then [] else Failures(k - 1) + [UpgradeBegins(k - 1), Picks(k - 1, [0], Some(0)), UpgradeFails(k - 1, 0)]
  }

  function Alone(url: string, o: C.Options): Setup {
    Setup([url], true, o, false)
  }

  /** Then request k begins, and picks the target when its timeout is over. */
  function Trial(o: C.Options, http: bool): seq<Event> {
    Failures(o.failureThreshold)
    + [if http then HttpBegins(o.failureThreshold, "POST", None) else UpgradeBegins(o.failureThreshold),
       Picks(o.failureThreshold, [o.resetTimeoutMs], Some(0))]
  }

  ghost predicate FailedSoFar(url: string, o: C.Options, k: nat, s: Pool) {
    && (var state := if k == o.failureThreshold then C.Open else C.Closed;
        s.targets == [Target(url, true, Some(C.Breaker(state, k, 0, false)))])
    && s.cursor == 0
    && (forall id :: id in s.requests <==> 0 <= id < k)
    && (forall id :: id in s.requests ==> s.requests[id].phase == Over(Failed, None))
  }

  lemma OneFailure(url: string, o: C.Options, k: nat, s: Pool)
    requires k < o.failureThreshold && FailedSoFar(url, o, k, s)
    ensures FailedSoFar(url, o, k + 1,
                        Step(Alone(url, o), Step(Alone(url, o), Step(Alone(url, o), s, UpgradeBegins(k)),
                            Picks(k, [0], Some(0))), UpgradeFails(k, 0)))
  {
    var setup := Alone(url, o);
    var s1 := Step(setup, s, UpgradeBegins(k));
    assert s1.requests[k] == Request(Upgrade, Choosing);
    assert Availability(o, s1.targets, [0]) == [true];
    var s2 := Step(setup, s1, Picks(k, [0], Some(0)));
    assert s2.targets == s.targets && s2.requests[k].phase == Holding(0);
    var s3 := Step(setup, s2, UpgradeFails(k, 0));
    assert s3.targets[0] == Reported(o, s2.targets, 0, url, false, 0);
  }

  lemma {:induction false} FailuresOpen(url: string, o: C.Options, k: nat)
    requires k <= o.failureThreshold
    ensures FailedSoFar(url, o, k, After(Alone(url, o), Failures(k)))
  {
    hide Step;
    if k > 0 {
      FailuresOpen(url, o, k - 1);
      var setup, h := Alone(url, o), Failures(k - 1);
      OneFailure(url, o, k - 1, After(setup, h));
      AfterOneMore(setup, h, UpgradeBegins(k - 1));
      AfterOneMore(setup, h + [UpgradeBegins(k - 1)], Picks(k - 1, [0], Some(0)));
      AfterOneMore(setup, h + [UpgradeBegins(k - 1)] + [Picks(k - 1, [0], Some(0))], UpgradeFails(k - 1, 0));
      assert Failures(k) == h + [UpgradeBegins(k - 1)] + [Picks(k - 1, [0], Some(0))] + [UpgradeFails(k - 1, 0)];
    } else {
      assert After(Alone(url, o), []) == Start(Alone(url, o));
    }
  }

  /**
   Both leaks do happen, at every threshold and timeout: a lone target fails
   often enough to open, is tried once its timeout is over, and that one try
   ends in a BodyTooLargeError, or in a client abort.
   */
  lemma LeaksHappen(url: string, o: C.Options, http: bool)
    ensures var setup, id := Alone(url, o), o.failureThreshold;
            var leak := if http then Forwarded(id, R.BodyTooLarge, 0.0, o.resetTimeoutMs) else ClientAborts(id);
            Dead(setup, After(setup, Trial(o, http) + [leak]), 0)
  {
    hide Dead, From, After;
    var setup, k := Alone(url, o), o.failureThreshold;
    FailuresOpen(url, o, k);
    var s := After(setup, Failures(k));
    var begin := if http then HttpBegins(k, "POST", None) else UpgradeBegins(k);
    var s1 := Step(setup, s, begin);
    assert k in s1.requests && s1.requests[k].phase.Choosing? && s1.targets == s.targets;
    assert Availability(o, s1.targets, [o.resetTimeoutMs]) == [true];
    var pick := Picks(k, [o.resetTimeoutMs], Some(0));
    var s2 := Step(setup, s1, pick);
    assert HalfOpenAt(s2, 0) && s2.requests[k].phase == Holding(0);
    AfterOneMore(setup, Failures(k), begin);
    AfterOneMore(setup, Failures(k) + [begin], pick);
    assert Trial(o, http) == Failures(k) + [begin] + [pick];
    var leak := if http then Forwarded(k, R.BodyTooLarge, 0.0, o.resetTimeoutMs) else ClientAborts(k);
    assert forall x :: HoldsUrl(s2, x, url) ==> x == k;
    OneLeakKillsATarget(setup, Trial(o, http), k, leak);
    assert forall j :: !Twins(s2, 0, j);
  }
}
