/** The circuit breaker (packages/core/src/breaker/circuitBreaker.ts). */
module CircuitBreaking {
  import opened Common

  datatype OptionsData = OptionsData(failureThreshold: int, resetTimeoutMs: int)
  type Options = o: OptionsData | o.failureThreshold >= 1 && o.resetTimeoutMs >= 1 witness OptionsData(1, 1)

  datatype Circuit = Closed | Open | HalfOpen

  datatype Breaker = Breaker(state: Circuit, consecutiveFailures: nat, openedAt: int, halfOpenTrialInFlight: bool)

  const FRESH := Breaker(Closed, 0, 0, false)

  function CanRequest(o: Options, b: Breaker, now: int): (Breaker, bool) {
    if b.state.Closed? then (b, true)
    else if b.state.Open? && now - b.openedAt < o.resetTimeoutMs then (b, false)
    else
      var b1 := if b.state.Open? then b.(state := HalfOpen, halfOpenTrialInFlight := false) else b;
      if b1.halfOpenTrialInFlight then (b1, false) else (b1.(halfOpenTrialInFlight := true), true)
  }

  function RecordSuccess(b: Breaker): Breaker {
    Breaker(Closed, 0, b.openedAt, false)
  }

  function RecordFailure(o: Options, b: Breaker, now: int): Breaker {
    if b.state.HalfOpen? then Breaker(Open, b.consecutiveFailures, now, false)
    else if b.consecutiveFailures + 1 >= o.failureThreshold then Breaker(Open, b.consecutiveFailures + 1, now, false)
    else b.(consecutiveFailures := b.consecutiveFailures + 1, halfOpenTrialInFlight := false)
  }

  class CircuitBreaker {
    const options: Options
    var state: Circuit
    var consecutiveFailures: nat
    var openedAt: int
    var halfOpenTrialInFlight: bool

    ghost function View(): Breaker
      reads this
    {
      Breaker(state, consecutiveFailures, openedAt, halfOpenTrialInFlight)
    }

    constructor (options: Options)
      ensures this.options == options && View() == FRESH
    {
      this.options := options;
      state, consecutiveFailures, openedAt, halfOpenTrialInFlight := Closed, 0, 0, false;
    }

    method AskToSend(now: int) returns (admitted: bool)
      modifies this
      ensures (View(), admitted) == CanRequest(options, old(View()), now)
    {
      if state == Closed {
        return true;
      }
      if state == Open {
        if now - openedAt < options.resetTimeoutMs {
          return false;
        }
        state := HalfOpen;
        halfOpenTrialInFlight := false;
      }
      if halfOpenTrialInFlight {
        return false;
      }
      halfOpenTrialInFlight := true;
      return true;
    }

    method Succeeded()
      modifies this
      ensures View() == RecordSuccess(old(View()))
    {
      state := Closed;
      consecutiveFailures := 0;
      halfOpenTrialInFlight := false;
    }

    method Failed(now: int)
      modifies this
      ensures View() == RecordFailure(options, old(View()), now)
    {
      halfOpenTrialInFlight := false;
      if state == HalfOpen {
        state := Open;
        openedAt := now;
        return;
      }
      consecutiveFailures := consecutiveFailures + 1;
      if consecutiveFailures >= options.failureThreshold {
        state := Open;
        openedAt := now;
      }
    }
  }

  // -------------------------------------------------------------------- runs

  /** Requests asking to pass, and reports from any request however old. */
  datatype Event = Ask(now: int) | Success | Failure(now: int)

  function Step(o: Options, b: Breaker, e: Event): (Breaker, bool) {
    match e
    case Ask(now) => CanRequest(o, b, now)
    case Success => (RecordSuccess(b), false)
    case Failure(now) => (RecordFailure(o, b, now), false)
  }

  function After(o: Options, b: Breaker, events: seq<Event>): Breaker {
    if |events| == 0 then b else Step(o, After(o, b, Front(events)), Last(events)).0
  }

  /** Times at which requests were let through. */
  function PassTimes(o: Options, b: Breaker, events: seq<Event>): seq<int> {
    if |events| == 0 then []
    else
      var earlier := PassTimes(o, b, Front(events));
      if Step(o, After(o, b, Front(events)), Last(events)).1 && Last(events).Ask? then earlier + [Last(events).now]
          else earlier
  }

  /**
   On every run, the breaker is closed exactly when consecutiveFailures is below
   the threshold, and half-open exactly while its one trial is in flight.
   */
  lemma {:induction false} ClosedExactlyBelowThreshold(o: Options, events: seq<Event>)
    ensures var b := After(o, FRESH, events);
            && (b.state.Closed? <==> b.consecutiveFailures < o.failureThreshold)
            && (b.state.HalfOpen? <==> b.halfOpenTrialInFlight)
  {
    if |events| > 0 { ClosedExactlyBelowThreshold(o, Front(events)); }
  }

  // ---------------------------------------------- the breaker as its history

  /** Failures reported since the last success. */
  function FailuresSince(events: seq<Event>): nat {
    if |events| == 0 then 0
    else
      match Last(events)
      case Success => 0
      case Failure(_) => FailuresSince(Front(events)) + 1
      case Ask(_) => FailuresSince(Front(events))
  }

  function LastFailure(events: seq<Event>): Option<int> {
    if |events| == 0 then None
    else if Last(events).Failure? then Some(Last(events).now)
    else LastFailure(Front(events))
  }

  /** Since the last report, a request has asked when the timeout, counted from the last failure, was over. */
  predicate Tried(o: Options, events: seq<Event>) {
    && |events| > 0 && Last(events).Ask?
    && (|| Tried(o, Front(events))
        || (LastFailure(events).Some? && Last(events).now - LastFailure(events).value >= o.resetTimeoutMs))
  }

  /**
   Every answer is decided by the reports and requests alone: a request passes if
   and only if fewer than failureThreshold failures have been reported since the
   last success, or resetTimeoutMs have gone by since the last failure and nothing
   has been let through since. While closed, consecutiveFailures is that number of
   failures.
   */
  lemma {:induction false} BreakerIsItsHistory(o: Options, events: seq<Event>, now: int)
    ensures var b := After(o, FRESH, events);
            && (b.state.Closed? <==> FailuresSince(events) < o.failureThreshold)
            && (b.state.Closed? ==> b.consecutiveFailures == FailuresSince(events))
            && (b.state.HalfOpen? <==> FailuresSince(events) >= o.failureThreshold && Tried(o, events))
            && (!b.state.Closed? ==> LastFailure(events).Some? && b.consecutiveFailures >= o.failureThreshold)
            && (b.state.Open? ==> LastFailure(events) == Some(b.openedAt))
    ensures CanRequest(o, After(o, FRESH, events), now).1
            <==> || FailuresSince(events) < o.failureThreshold
                 || (LastFailure(events).Some? && now - LastFailure(events).value >= o.resetTimeoutMs
                    && !Tried(o, events))
  {
    ClosedExactlyBelowThreshold(o, events);
    if |events| > 0 {
      BreakerIsItsHistory(o, Front(events), now);
      ClosedExactlyBelowThreshold(o, Front(events));
    }
  }

  /** The clock starts at `start` and never steps back; no success is reported. */
  ghost predicate FailingFrom(start: int, events: seq<Event>) {
    && (forall i :: 0 <= i < |events| ==> !events[i].Success? && start <= events[i].now)
    && (forall i, j ::
        0 <= i < j < |events| && !events[i].Success? && !events[j].Success? ==> events[i].now <= events[j].now)
  }

  ghost predicate SpacedFrom(start: int, gap: int, times: seq<int>) {
    && (|times| > 0 ==> times[0] >= start + gap)
    && (forall i, j :: 0 <= i < j < |times| ==> times[j] >= times[i] + gap)
  }

  /** Not closed since the last pass, or since the opening, at time m. */
  ghost predicate WaitingSince(o: Options, b: Breaker, m: int) {
    && b.consecutiveFailures >= o.failureThreshold
    && ((b.state.Open? && b.openedAt >= m) || (b.state.HalfOpen? && b.halfOpenTrialInFlight))
  }

  lemma FailingStep(o: Options, b: Breaker, e: Event, m: int)
    requires WaitingSince(o, b, m) && !e.Success? && m <= e.now
    ensures var (b', passed) := Step(o, b, e);
            WaitingSince(o, b', if passed then e.now else m) && (passed ==> e.Ask? && e.now >= m + o.resetTimeoutMs)
  {
  }

  /** Time of the last pass, or of the opening. */
  function LastPass(start: int, times: seq<int>): int {
    if |times| == 0 then start else Last(times)
  }

  /**
   From the moment it opens until a success is recorded, whatever stale failure
   reports arrive, passes are at least resetTimeoutMs apart, the first that long
   after the opening.
   */
  lemma {:induction false} PassesAreSpaced(o: Options, b: Breaker, events: seq<Event>)
    requires b.state.Open? && b.consecutiveFailures >= o.failureThreshold && FailingFrom(b.openedAt, events)
    ensures var times := PassTimes(o, b, events);
            && SpacedFrom(b.openedAt, o.resetTimeoutMs, times)
            && WaitingSince(o, After(o, b, events), LastPass(b.openedAt, times))
            && (|events| > 0 ==> b.openedAt <= LastPass(b.openedAt, times) <= Last(events).now)
  {
    hide Step, WaitingSince;
    if |events| > 0 {
      PassesAreSpaced(o, b, Front(events));
      var times := PassTimes(o, b, Front(events));
      FailingStep(o, After(o, b, Front(events)), Last(events), LastPass(b.openedAt, times));
      assert |times| > 0 ==> forall i :: 0 <= i < |times| ==> times[i] <= Last(times);
    } else {
      OpenWaits(o, b);
    }
  }

  lemma OpenWaits(o: Options, b: Breaker)
    requires b.state.Open? && b.consecutiveFailures >= o.failureThreshold
    ensures WaitingSince(o, b, b.openedAt)
  {
  }

  lemma {:induction false} SpacedTimesGrow(start: int, gap: int, times: seq<int>)
    requires gap >= 1 && SpacedFrom(start, gap, times) && |times| > 0
    ensures Last(times) >= start + |times| * gap
  {
    var n := |times|;
    if n > 1 {
      var earlier := times[..n - 1];
      SpacedTimesGrow(start, gap, earlier);
      assert earlier[n - 2] == times[n - 2];
      assert n * gap == (n - 1) * gap + gap;
    }
  }

  /** So at most floor(L / resetTimeoutMs) requests pass in the L ms after the opening. */
  lemma PassesAreFew(o: Options, b: Breaker, events: seq<Event>)
    requires b.state.Open? && b.consecutiveFailures >= o.failureThreshold && FailingFrom(b.openedAt, events)
        && |events| > 0
    ensures |PassTimes(o, b, events)| <= (Last(events).now - b.openedAt) / o.resetTimeoutMs
  {
    hide After, PassTimes, Step;
    PassesAreSpaced(o, b, events);
    var times := PassTimes(o, b, events);
    if |times| > 0 { SpacedTimesGrow(b.openedAt, o.resetTimeoutMs, times); }
    AtMostFloor(|times|, o.resetTimeoutMs, Last(events).now - b.openedAt);
  }

  lemma AtMostFloor(k: nat, r: int, elapsed: int)
    requires r >= 1 && k * r <= elapsed
    ensures k <= elapsed / r
  {
    if elapsed / r + 1 <= k { MulMonotone(elapsed / r + 1, k, r); }
    assert (elapsed / r + 1) * r == (elapsed / r) * r + r;
  }

  /** Every report leaves the half-open state. */
  lemma ReportReleasesTrial(o: Options, b: Breaker, e: Event)
    requires !e.Ask?
    ensures !Step(o, b, e).0.state.HalfOpen? && !Step(o, b, e).0.halfOpenTrialInFlight
  {
  }

  /** Without a report, a half-open breaker whose trial is in flight never lets anything through again. */
  lemma {:induction false} UnreportedTrialBlocksForever(o: Options, b: Breaker, events: seq<Event>)
    requires b.state.HalfOpen? && b.halfOpenTrialInFlight && forall i :: 0 <= i < |events| ==> events[i].Ask?
    ensures After(o, b, events) == b && PassTimes(o, b, events) == []
  {
    if |events| > 0 { UnreportedTrialBlocksForever(o, b, Front(events)); }
  }
}
