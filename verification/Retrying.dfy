/** The retry loop (packages/gateway/src/proxy/retry.ts). */
module Retrying {
  import opened Common

  datatype RetryConfig = RetryConfig(attempts: nat, backoffMs: int)

  datatype Outcome = Response(statusCode: int) | BodyTooLarge | ConnectionError(message: string)

  /** What the world answers on one attempt: the balancer's pick, the upstream's outcome, the random draw. */
  datatype Attempt = Attempt(pick: Option<string>, outcome: Outcome, draw: real)

  datatype Action =
    | Pick(target: string)
    | Forward(target: string)
    | ReportSuccess(target: string)
    | ReportFailure(target: string)
    | Sleep(ms: real)

  datatype Exit = Returned(statusCode: int) | NoHealthyTarget | BodyTooLargeError | LastError(message: string)

  function IsIdempotentMethod(name: string): bool {
    name in {"GET", "HEAD", "PUT", "DELETE"}
  }

  function MaxAttempts(retry: Option<RetryConfig>, httpMethod: string): (n: nat) {
    if retry.Some? && IsIdempotentMethod(httpMethod) then retry.value.attempts + 1 else 1
  }

  function Pow2(k: nat): (r: int)
    ensures r >= 1
  {
    if k == 0 then 1 else 2 * Pow2(k - 1)
  }

  /** Attempt 1 draws from [b, 2b), attempt 2 from [2b, 4b), ... */
  function JitteredBackoff(backoffMs: int, attempt: nat, draw: real): real
    requires attempt >= 1
  {
    var upper := (backoffMs * Pow2(attempt)) as real;
    var lower := (backoffMs * Pow2(attempt - 1)) as real;
    lower + Share(draw, upper - lower)
  }

  /** The random part: draw is Math.random(), in [0, 1). */
  function Share(draw: real, spread: real): real { draw * spread }

  /** One attempt: what it does, and whether the loop ends there. */
  function AttemptActions(a: Attempt, attempt: nat, maxAttempts: nat, backoffMs: int): (seq<Action>, Option<Exit>)
    requires attempt >= 1
  {
    if a.pick.None? then ([], Some(NoHealthyTarget))
    else
      var t := a.pick.value;
      match a.outcome
      case Response(code) =>
        ([Pick(t), Forward(t), if code >= 500 then ReportFailure(t) else ReportSuccess(t)], Some(Returned(code)))
      case BodyTooLarge => ([Pick(t), Forward(t)], Some(BodyTooLargeError))
      case ConnectionError(message) =>
        if attempt < maxAttempts
        then ([Pick(t), Forward(t), ReportFailure(t), Sleep(JitteredBackoff(backoffMs, attempt, a.draw))], None)
        else ([Pick(t), Forward(t), ReportFailure(t)], Some(LastError(message)))
  }

  /** Everything done from the given attempt on. */
  function Trace(world: seq<Attempt>, attempt: nat, maxAttempts: nat, backoffMs: int): (seq<Action>, Exit)
    requires 1 <= attempt <= maxAttempts == |world|
    decreases maxAttempts - attempt
  {
    var (actions, exit) := AttemptActions(world[attempt - 1], attempt, maxAttempts, backoffMs);
    if exit.Some? then (actions, exit.value)
    else
      var rest := Trace(world, attempt + 1, maxAttempts, backoffMs);
      (actions + rest.0, rest.1)
  }

  lemma TraceStep(before: seq<Action>, world: seq<Attempt>, attempt: nat, backoffMs: int)
    requires 1 <= attempt <= |world|
    ensures var (actions, exit), whole := AttemptActions(world[attempt - 1], attempt, |world|, backoffMs),
        Trace(world, attempt, |world|, backoffMs);
            if exit.Some? then before + whole.0 == before + actions && whole.1 == exit.value
            else attempt < |world|
                 && before + whole.0 == (before + actions) + Trace(world, attempt + 1, |world|, backoffMs).0
                 && whole.1 == Trace(world, attempt + 1, |world|, backoffMs).1
  {
    hide JitteredBackoff;
  }

  method ForwardWithRetry(retry: Option<RetryConfig>, httpMethod: string, world: seq<Attempt>)
    returns (exit: Exit, trace: seq<Action>)
    requires |world| == MaxAttempts(retry, httpMethod)
    ensures (trace, exit) == Trace(world, 1, |world|, if retry.Some? then retry.value.backoffMs else 0)
  {
    hide JitteredBackoff, Trace;
    var eligible := retry.Some? && IsIdempotentMethod(httpMethod);
    var maxAttempts := if eligible then retry.value.attempts + 1 else 1;
    ghost var b := if retry.Some? then retry.value.backoffMs else 0;
    ghost var whole := Trace(world, 1, maxAttempts, b);
    trace := [];
    assert trace + whole.0 == whole.0;
    var attempt := 1;
    while true
      invariant 1 <= attempt <= maxAttempts
      invariant trace + Trace(world, attempt, maxAttempts, b).0 == whole.0
      invariant Trace(world, attempt, maxAttempts, b).1 == whole.1
      decreases maxAttempts - attempt
    {
      var a := world[attempt - 1];
      ghost var before, actions := trace, AttemptActions(a, attempt, maxAttempts, b).0;
      TraceStep(before, world, attempt, b);
      if a.pick.None? {
        assert before + actions == trace;
        return NoHealthyTarget, trace;
      }
      var target := a.pick.value;
      trace := trace + [Pick(target), Forward(target)];
      if a.outcome.Response? {
        trace := trace + [if a.outcome.statusCode >= 500 then ReportFailure(target) else ReportSuccess(target)];
        assert before + actions == trace;
        return Returned(a.outcome.statusCode), trace;
      }
      if a.outcome.BodyTooLarge? {
        return BodyTooLargeError, trace;
      }
      trace := trace + [ReportFailure(target)];
      if attempt == maxAttempts {
        assert before + actions == trace;
        return LastError(a.outcome.message), trace;
      }
      trace := trace + [Sleep(JitteredBackoff(retry.value.backoffMs, attempt, a.draw))];
      assert before + actions == trace;
      attempt := attempt + 1;
    }
  }

  // -------------------------------------------------------------- accounting

  datatype Kind = Picked | Forwarded | Reported

  /** The target an action of that kind is about. */
  function Target(x: Action, kind: Kind): seq<string> {
    match kind
    case Picked => if x.Pick? then [x.target] else []
    case Forwarded => if x.Forward? then [x.target] else []
    case Reported => if x.ReportSuccess? || x.ReportFailure? then [x.target] else []
  }

  /** Targets picked, forwarded to or reported on, in order. */
  function Targets(trace: seq<Action>, kind: Kind): seq<string> {
    if |trace| == 0 then [] else Targets(Front(trace), kind) + Target(Last(trace), kind)
  }

  function Sleeps(trace: seq<Action>): seq<real> {
    if |trace| == 0 then [] else Sleeps(Front(trace)) + (if Last(trace).Sleep? then [Last(trace).ms] else [])
  }

  lemma {:induction false} TargetsAppend(a: seq<Action>, b: seq<Action>, kind: Kind)
    ensures Targets(a + b, kind) == Targets(a, kind) + Targets(b, kind)
  {
    hide Target;
    if |b| == 0 {
      assert a + b == a;
    } else {
      assert Front(a + b) == a + Front(b);
      TargetsAppend(a, Front(b), kind);
    }
  }

  lemma {:induction false} SleepsAppend(a: seq<Action>, b: seq<Action>)
    ensures Sleeps(a + b) == Sleeps(a) + Sleeps(b)
  {
    if |b| == 0 {
      assert a + b == a;
    } else {
      assert Front(a + b) == a + Front(b);
      SleepsAppend(a, Front(b));
    }
  }

  lemma TargetsOfFew(xs: seq<Action>, kind: Kind)
    requires |xs| <= 4
    ensures Targets(xs, kind)
         == (if |xs| > 0 then Target(xs[0], kind) else []) + (if |xs| > 1 then Target(xs[1], kind) else [])
            + (if |xs| > 2 then Target(xs[2], kind) else []) + (if |xs| > 3 then Target(xs[3], kind) else [])
    decreases |xs|
  {
    hide Target;
    if |xs| > 0 { TargetsOfFew(Front(xs), kind); }
  }

  lemma SleepsOfFew(xs: seq<Action>)
    requires |xs| <= 4 && forall i :: 0 <= i < |xs| ==> (xs[i].Sleep? <==> i == 3)
    ensures Sleeps(xs) == if |xs| == 4 then [xs[3].ms] else []
    decreases |xs|
  {
    if |xs| > 0 { SleepsOfFew(Front(xs)); }
  }

  lemma AttemptTargetsOf(a: Attempt, attempt: nat, maxAttempts: nat, backoffMs: int, kind: Kind)
    requires attempt >= 1
    ensures var (actions, exit) := AttemptActions(a, attempt, maxAttempts, backoffMs);
            Targets(actions, kind) == if a.pick.None? || (kind.Reported? && exit == Some(BodyTooLargeError)) then []
                else [a.pick.value]
  {
    hide JitteredBackoff, Targets;
    TargetsOfFew(AttemptActions(a, attempt, maxAttempts, backoffMs).0, kind);
  }

  lemma AttemptTargets(a: Attempt, attempt: nat, maxAttempts: nat, backoffMs: int)
    requires attempt >= 1
    ensures var (actions, exit) := AttemptActions(a, attempt, maxAttempts, backoffMs);
            var once := if a.pick.Some? then [a.pick.value] else [];
            && Targets(actions, Picked) == once && Targets(actions, Forwarded) == once
            && Targets(actions, Reported) == (if exit == Some(BodyTooLargeError) then [] else once)
            && Sleeps(actions) == if exit.None? then [JitteredBackoff(backoffMs, attempt, a.draw)] else []
  {
    hide JitteredBackoff, Targets, Sleeps;
    AttemptTargetsOf(a, attempt, maxAttempts, backoffMs, Picked);
    AttemptTargetsOf(a, attempt, maxAttempts, backoffMs, Forwarded);
    AttemptTargetsOf(a, attempt, maxAttempts, backoffMs, Reported);
    SleepsOfFew(AttemptActions(a, attempt, maxAttempts, backoffMs).0);
  }

  /** The attempts that were made: all failed to connect, except possibly the last. */
  ghost predicate EndsAt(world: seq<Attempt>, attempt: nat, last: nat, exit: Exit)
    requires 1 <= attempt <= last <= |world|
  {
    && (forall i :: attempt - 1 <= i < last - 1 ==> world[i].pick.Some? && world[i].outcome.ConnectionError?)
    && match exit
       case Returned(code) => world[last - 1].pick.Some? && world[last - 1].outcome == Response(code)
       case BodyTooLargeError => world[last - 1].pick.Some? && world[last - 1].outcome.BodyTooLarge?
       case NoHealthyTarget => world[last - 1].pick.None?
       case LastError(m) =>
           world[last - 1].pick.Some? && world[last - 1].outcome == ConnectionError(m) && last == |world|
  }

  /** The targets of attempts attempt..last. */
  function TargetsTried(world: seq<Attempt>, attempt: nat, last: nat): seq<string>
    requires 1 <= attempt <= last <= |world|
    decreases last - attempt
  {
    (if world[attempt - 1].pick.Some? then [world[attempt - 1].pick.value] else [])
    + (if attempt < last then TargetsTried(world, attempt + 1, last) else [])
  }

  function Backoffs(world: seq<Attempt>, attempt: nat, last: nat, backoffMs: int): seq<real>
    requires 1 <= attempt <= last <= |world|
    decreases last - attempt
  {
    if attempt == last then []
    else [JitteredBackoff(backoffMs, attempt, world[attempt - 1].draw)] + Backoffs(world, attempt + 1, last, backoffMs)
  }

  /**
   Retry accounting. The loop stops at the first attempt that is not a
   connection failure, or at the last one allowed; it forwards once per pick and
   reports exactly once per pick, in order - except that a BodyTooLargeError
   leaves its own pick, the last, unreported; and it sleeps between attempts only.
   */
  lemma {:induction false} RetryAccounting(world: seq<Attempt>, attempt: nat, backoffMs: int) returns (last: nat)
    requires 1 <= attempt <= |world|
    ensures attempt <= last <= |world|
    ensures var (trace, exit) := Trace(world, attempt, |world|, backoffMs);
            && EndsAt(world, attempt, last, exit)
            && Targets(trace, Picked) == TargetsTried(world, attempt, last)
            && Targets(trace, Forwarded) == Targets(trace, Picked)
            && (if exit.BodyTooLargeError?
                then |Targets(trace, Picked)| > 0 && Targets(trace, Reported) == Front(Targets(trace, Picked))
                else Targets(trace, Reported) == Targets(trace, Picked))
            && Sleeps(trace) == Backoffs(world, attempt, last, backoffMs)
    decreases |world| - attempt
  {
    hide JitteredBackoff, AttemptActions, Targets, Sleeps;
    var a := world[attempt - 1];
    AttemptTargets(a, attempt, |world|, backoffMs);
    AttemptEnds(a, attempt, |world|, backoffMs);
    var (actions, exit) := AttemptActions(a, attempt, |world|, backoffMs);
    if exit.Some? {
      last := attempt;
    } else {
      last := RetryAccounting(world, attempt + 1, backoffMs);
      var rest := Trace(world, attempt + 1, |world|, backoffMs).0;
      TargetsAppend(actions, rest, Picked);
      TargetsAppend(actions, rest, Forwarded);
      TargetsAppend(actions, rest, Reported);
      SleepsAppend(actions, rest);
      if |Targets(rest, Picked)| > 0 {
        assert Front(Targets(actions, Picked) + Targets(rest, Picked))
            == Targets(actions, Picked) + Front(Targets(rest, Picked));
      }
    }
  }

  lemma AttemptEnds(a: Attempt, attempt: nat, maxAttempts: nat, backoffMs: int)
    requires 1 <= attempt <= maxAttempts
    ensures var exit := AttemptActions(a, attempt, maxAttempts, backoffMs).1;
            match exit
            case None => a.pick.Some? && a.outcome.ConnectionError? && attempt < maxAttempts
            case Some(Returned(code)) => a.pick.Some? && a.outcome == Response(code)
            case Some(BodyTooLargeError) => a.pick.Some? && a.outcome.BodyTooLarge?
            case Some(NoHealthyTarget) => a.pick.None?
            case Some(LastError(m)) => a.pick.Some? && a.outcome == ConnectionError(m) && attempt == maxAttempts
  {
    hide JitteredBackoff;
  }

  lemma {:induction false} TriedLength(world: seq<Attempt>, attempt: nat, last: nat)
    requires 1 <= attempt <= last <= |world|
    ensures |TargetsTried(world, attempt, last)| <= last - attempt + 1
    decreases last - attempt
  {
    if attempt < last { TriedLength(world, attempt + 1, last); }
  }

  /** At most attempts + 1 forwards; a single one when the method is not idempotent or no retry is configured. */
  lemma ForwardsAreBounded(retry: Option<RetryConfig>, httpMethod: string, world: seq<Attempt>)
    requires |world| == MaxAttempts(retry, httpMethod)
    ensures var b := if retry.Some? then retry.value.backoffMs else 0;
            var trace := Trace(world, 1, |world|, b).0;
            && |Targets(trace, Forwarded)| <= (if retry.Some? then retry.value.attempts + 1 else 1)
            && (!IsIdempotentMethod(httpMethod) ==> |Targets(trace, Forwarded)| <= 1)
  {
    var last := RetryAccounting(world, 1, if retry.Some? then retry.value.backoffMs else 0);
    TriedLength(world, 1, last);
  }

  /** Retries are for GET, HEAD, PUT and DELETE on a route that configures them; everything else has one attempt. */
  lemma OnlyFourMethodsRetry(retry: Option<RetryConfig>, httpMethod: string)
    ensures MaxAttempts(retry, httpMethod)
         == if retry.Some? && (httpMethod == "GET" || httpMethod == "HEAD" || httpMethod == "PUT"
             || httpMethod == "DELETE")
            then retry.value.attempts + 1 else 1
  {}

  /** And each of them is used, as long as there is a target and no answer. */
  lemma {:induction false} AllAttemptsAreUsed(world: seq<Attempt>, attempt: nat, backoffMs: int)
    requires 1 <= attempt <= |world|
    requires forall i :: 0 <= i < |world| ==> world[i].pick.Some? && world[i].outcome.ConnectionError?
    ensures var (trace, exit) := Trace(world, attempt, |world|, backoffMs);
            && |Targets(trace, Forwarded)| == |world| - attempt + 1
            && exit == LastError(world[|world| - 1].outcome.message)
    decreases |world| - attempt
  {
    hide JitteredBackoff, AttemptActions, Targets;
    var a := world[attempt - 1];
    AttemptTargetsOf(a, attempt, |world|, backoffMs, Forwarded);
    AttemptEnds(a, attempt, |world|, backoffMs);
    if attempt < |world| {
      AllAttemptsAreUsed(world, attempt + 1, backoffMs);
      TargetsAppend(AttemptActions(a, attempt, |world|, backoffMs).0,
        Trace(world, attempt + 1, |world|, backoffMs).0, Forwarded);
    }
  }

  /** The backoff after an attempt is b * 2^(attempt - 1), and that much again times the draw. */
  lemma BackoffIsProportional(backoffMs: int, attempt: nat, draw: real)
    requires attempt >= 1
    ensures JitteredBackoff(backoffMs, attempt, draw) == (backoffMs * Pow2(attempt - 1)) as real * (1.0 + draw)
  {
    Pow2Doubles(attempt);
    var p := Pow2(attempt - 1);
    hide Pow2;
    var n := backoffMs * p;
    assert backoffMs * (2 * p) == 2 * n;
    assert (2 * n) as real - n as real == n as real;
    assert (n as real) * (1.0 + draw) == n as real + draw * (n as real);
  }

  function Sum(xs: seq<real>): real {
    if |xs| == 0 then 0.0 else xs[0] + Sum(xs[1..])
  }

  /** k sleeps, k >= 1, total at least b * (2^k - 1) and less than twice that. */
  lemma {:induction false} BackoffTotal(world: seq<Attempt>, attempt: nat, last: nat, backoffMs: int)
    requires 1 <= attempt <= last <= |world| && backoffMs >= 1
    requires forall i :: 0 <= i < |world| ==> 0.0 <= world[i].draw < 1.0
    ensures var total, least := Sum(Backoffs(world, attempt, last, backoffMs)),
        (backoffMs * (Pow2(last - 1) - Pow2(attempt - 1))) as real;
            least <= total && (attempt < last ==> total < 2.0 * least)
    decreases last - attempt
  {
    hide JitteredBackoff, Pow2;
    var p, q, r := Pow2(attempt - 1), Pow2(last - 1), Pow2(attempt);
    assert backoffMs * (q - p) == backoffMs * (q - r) + backoffMs * (r - p);
    if attempt < last {
      var xs := Backoffs(world, attempt + 1, last, backoffMs);
      var x := JitteredBackoff(backoffMs, attempt, world[attempt - 1].draw);
      BackoffTotal(world, attempt + 1, last, backoffMs);
      assert ([x] + xs)[1..] == xs;
      BackoffRange(backoffMs, attempt, world[attempt - 1].draw);
      NothingLess(world, attempt + 1, last, backoffMs);
    }
  }

  lemma NothingLess(world: seq<Attempt>, attempt: nat, last: nat, backoffMs: int)
    requires 1 <= attempt <= last <= |world|
    ensures attempt == last
        ==> Sum(Backoffs(world, attempt, last, backoffMs)) == 0.0 && Pow2(last - 1) - Pow2(attempt - 1) == 0
  {
  }

  lemma BackoffRange(backoffMs: int, attempt: nat, draw: real)
    requires attempt >= 1 && backoffMs >= 1 && 0.0 <= draw < 1.0
    ensures var lower := (backoffMs * (Pow2(attempt) - Pow2(attempt - 1))) as real;
            lower <= JitteredBackoff(backoffMs, attempt, draw) < 2.0 * lower
  {
    Pow2Doubles(attempt);
    var p := Pow2(attempt - 1);
    hide Pow2, Share;
    var n := backoffMs * p;
    assert backoffMs * (2 * p) == 2 * n && backoffMs * (2 * p - p) == n;
    MulMonotone(1, p, backoffMs);
    var lower, upper := n as real, (2 * n) as real;
    assert upper == lower + lower == 2.0 * lower;
    assert backoffMs * Pow2(attempt) == 2 * n;
    ShareRange(draw, upper - lower);
  }

  lemma Pow2Doubles(k: nat)
    requires k >= 1
    ensures Pow2(k) == 2 * Pow2(k - 1)
  {
  }

  lemma ShareRange(draw: real, spread: real)
    requires spread > 0.0 && 0.0 <= draw < 1.0
    ensures 0.0 <= Share(draw, spread) < spread
  {
    assert (1.0 - draw) * spread > 0.0;
  }

  /** One whole call that sleeps k times, k >= 1, sleeps at least b * (2^k - 1) in all and less than twice that. */
  lemma BackoffOfCall(world: seq<Attempt>, backoffMs: int)
    requires |world| >= 1 && backoffMs >= 1
    requires forall i :: 0 <= i < |world| ==> 0.0 <= world[i].draw < 1.0
    ensures var sleeps := Sleeps(Trace(world, 1, |world|, backoffMs).0);
            var least := (backoffMs * (Pow2(|sleeps|) - 1)) as real;
            |sleeps| < |world| && least <= Sum(sleeps) && (|sleeps| >= 1 ==> Sum(sleeps) < 2.0 * least)
  {
    hide Trace, Sleeps;
    var last := RetryAccounting(world, 1, backoffMs);
    BackoffTotal(world, 1, last, backoffMs);
    BackoffCount(world, 1, last, backoffMs);
  }

  lemma {:induction false} BackoffCount(world: seq<Attempt>, attempt: nat, last: nat, backoffMs: int)
    requires 1 <= attempt <= last <= |world|
    ensures |Backoffs(world, attempt, last, backoffMs)| == last - attempt
    decreases last - attempt
  {
    if attempt < last { BackoffCount(world, attempt + 1, last, backoffMs); }
  }
}
