/** Runs of one key: any sequence of calls, replayed through any of the five algorithms. */
module Runs {
  import opened Common
  import opened RateLimitTypes
  import FixedWindow
  import TokenBucket
  import LeakyBucket
  import SlidingWindowLog
  import SlidingWindowCounter

  datatype Algorithm = Fixed | Token | Leaky | Log | Counter

  datatype State =
    | FixedState(fixed: FixedWindow.State)
    | TokenState(token: TokenBucket.State)
    | LeakyState(leaky: LeakyBucket.State)
    | LogState(log: SlidingWindowLog.State)
    | CounterState(counter: SlidingWindowCounter.State)

  predicate Fits(a: Algorithm, s: State) {
    match a
    case Fixed => s.FixedState?
    case Token => s.TokenState?
    case Leaky => s.LeakyState?
    case Log => s.LogState?
    case Counter => s.CounterState?
  }

  function Step(a: Algorithm, s: Option<State>, p: Policy, now: int, cost: Cost): (r: (State, Decision))
    requires s.Some? ==> Fits(a, s.value)
    ensures Fits(a, r.0)
  {
    match a
    case Fixed =>
      var r := FixedWindow.Apply(if s.Some? then Some(s.value.fixed) else None, p, now, cost);
      (FixedState(r.0), r.1)
    case Token =>
      var r := TokenBucket.Apply(if s.Some? then Some(s.value.token) else None, p, now, cost);
      (TokenState(r.0), r.1)
    case Leaky =>
      var r := LeakyBucket.Apply(if s.Some? then Some(s.value.leaky) else None, p, now, cost);
      (LeakyState(r.0), r.1)
    case Log =>
      var r := SlidingWindowLog.Apply(if s.Some? then Some(s.value.log) else None, p, now, cost);
      (LogState(r.0), r.1)
    case Counter =>
      var r := SlidingWindowCounter.Apply(if s.Some? then Some(s.value.counter) else None, p, now, cost);
      (CounterState(r.0), r.1)
  }

  /** The state a fresh key is in after the calls. */
  function After(a: Algorithm, p: Policy, calls: seq<Call>): (s: Option<State>)
    ensures s.Some? ==> Fits(a, s.value)
    ensures s.Some? <==> |calls| > 0
  {
    if |calls| == 0 then None
    else Some(Step(a, After(a, p, Front(calls)), p, Last(calls).now, Last(calls).cost).0)
  }

  /** The decision on one more call. */
  function Decide(a: Algorithm, p: Policy, calls: seq<Call>, c: Call): Decision {
    Step(a, After(a, p, calls), p, c.now, c.cost).1
  }

  /** Everything admitted so far, oldest first, never pruned. */
  function Admitted(a: Algorithm, p: Policy, calls: seq<Call>): seq<Call> {
    if |calls| == 0 then []
    else
      var h := Admitted(a, p, Front(calls));
      if Decide(a, p, Front(calls), Last(calls)).allowed then h + [Last(calls)] else h
  }

  /** The one clock never steps back. */
  predicate InOrder(calls: seq<Call>) {
    forall i, j :: 0 <= i < j < |calls| ==> calls[i].now <= calls[j].now
  }

  /** Total cost of the calls in `h` with lo < now <= hi. */
  function CostIn(h: seq<Call>, lo: int, hi: int): (n: int)
    ensures n >= 0
  {
    if |h| == 0 then 0
    else CostIn(Front(h), lo, hi) + (if lo < Last(h).now <= hi then Last(h).cost else 0)
  }

  lemma {:induction false} CostInSplits(h: seq<Call>, a: int, b: int, c: int)
    requires a <= b <= c
    ensures CostIn(h, a, c) == CostIn(h, a, b) + CostIn(h, b, c)
  {
    if |h| > 0 { CostInSplits(Front(h), a, b, c); }
  }

  /** Bounds beyond the last entry, or before the first, do not matter. */
  lemma {:induction false} CostInClips(h: seq<Call>, lo: int, hi: int, hi': int)
    requires forall c :: c in h ==> c.now <= hi && c.now <= hi'
    ensures CostIn(h, lo, hi) == CostIn(h, lo, hi')
    ensures lo >= hi' ==> CostIn(h, lo, hi) == 0
  {
    if |h| > 0 { CostInClips(Front(h), lo, hi, hi'); }
  }

  lemma {:induction false} AdmittedAreCalls(a: Algorithm, p: Policy, calls: seq<Call>, t: int)
    requires forall c :: c in calls ==> c.now <= t
    ensures forall c :: c in Admitted(a, p, calls) ==> c.now <= t
  {
    if |calls| > 0 { AdmittedAreCalls(a, p, Front(calls), t); }
  }

  lemma InOrderFront(calls: seq<Call>)
    requires InOrder(calls) && |calls| > 0
    ensures InOrder(Front(calls))
    ensures forall c :: c in calls ==> c.now <= Last(calls).now
    ensures |calls| > 1 ==> Last(Front(calls)).now <= Last(calls).now
  {
  }

  lemma Snoc(a: Algorithm, p: Policy, calls: seq<Call>, c: Call)
    ensures After(a, p, calls + [c]) == Some(Step(a, After(a, p, calls), p, c.now, c.cost).0)
    ensures Admitted(a, p, calls + [c]) == Admitted(a, p, calls) + (if Decide(a, p, calls, c).allowed then [c] else [])
  {
    hide Step, Decide;
    assert Front(calls + [c]) == calls && Last(calls + [c]) == c;
  }

  lemma EmptyRun(a: Algorithm, p: Policy, lo: int, hi: int)
    ensures After(a, p, []) == None && Admitted(a, p, []) == [] && CostIn([], lo, hi) == 0
  {
  }

  /** How one more call changes what a range of the history holds. */
  lemma AdmittedStep(a: Algorithm, p: Policy, calls: seq<Call>, lo: int, hi: int)
    requires |calls| > 0
    ensures CostIn(Admitted(a, p, calls), lo, hi)
            == CostIn(Admitted(a, p, Front(calls)), lo, hi)
               + (if Decide(a, p, Front(calls), Last(calls)).allowed && lo < Last(calls).now <= hi
                   then Last(calls).cost else 0)
    ensures Admitted(a, p, calls)
            == Admitted(a, p, Front(calls)) + (if Decide(a, p, Front(calls), Last(calls)).allowed then [Last(calls)]
                else [])
  {
    var h := Admitted(a, p, Front(calls));
    assert Front(h + [Last(calls)]) == h;
  }

  /** The history of a run, seen from its last call: nothing in it is later. */
  lemma HistoryUpTo(a: Algorithm, p: Policy, calls: seq<Call>, lo: int, hi: int)
    requires InOrder(calls) && |calls| > 0 && Last(calls).now <= hi
    ensures CostIn(Admitted(a, p, calls), lo, hi) == CostIn(Admitted(a, p, calls), lo, Last(calls).now)
    ensures lo >= Last(calls).now ==> CostIn(Admitted(a, p, calls), lo, hi) == 0
  {
    InOrderFront(calls);
    AdmittedAreCalls(a, p, calls, Last(calls).now);
    CostInClips(Admitted(a, p, calls), lo, hi, Last(calls).now);
  }
}
