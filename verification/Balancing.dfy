/** Round-robin target choice (packages/gateway/src/proxy/balancer.ts). */
module Balancing {
  import opened Common
  import opened CircuitBreaking

  datatype Target = Target(url: string, healthy: bool, breaker: Option<Breaker>)

  function Available(o: Options, t: Target, now: int): bool {
    t.healthy && (t.breaker.None? || CanRequest(o, t.breaker.value, now).1)
  }

  /**
   Healthy, and its breaker, if it has one, is closed, or open for at least
   resetTimeoutMs, or half-open with no trial under way.
   */
  predicate IsReady(o: Options, t: Target, now: int) {
    && t.healthy
    && (t.breaker.Some? ==>
          match t.breaker.value.state
          case Closed => true
          case Open => now >= t.breaker.value.openedAt + o.resetTimeoutMs
          case HalfOpen => !t.breaker.value.halfOpenTrialInFlight)
  }

  lemma ReadyMeansAvailable(o: Options, t: Target, now: int)
    ensures IsReady(o, t, now) <==> Available(o, t, now)
  {}

  /** The target as it is once chosen: its breaker has let one request through. */
  function Chosen(o: Options, t: Target, now: int): Target {
    if t.breaker.None? then t else t.(breaker := Some(CanRequest(o, t.breaker.value, now).0))
  }

  /** clock[i] is what Date.now() reads when target i is asked. */
  function Availability(o: Options, targets: seq<Target>, clock: seq<int>): seq<bool>
    requires |clock| == |targets|
  {
    seq(|targets|, i requires 0 <= i < |targets| => Available(o, targets[i], clock[i]))
  }

  /** How many targets the scan passes over before it reaches index x. */
  function Distance(n: nat, cursor: nat, x: nat): (d: nat)
    requires cursor < n && x < n
    ensures d < n
  {
    if x >= cursor then x - cursor else x - cursor + n
  }

  /** The choice, without any scan: the available index nearest after the cursor. */
  ghost predicate IsPick(avail: seq<bool>, cursor: nat, pick: Option<nat>)
    requires |avail| > 0 ==> cursor < |avail|
  {
    match pick
    case None => forall j :: 0 <= j < |avail| ==> !avail[j]
    case Some(i) =>
      && i < |avail| && avail[i]
      && forall j :: 0 <= j < |avail| && avail[j] ==> Distance(|avail|, cursor, i) <= Distance(|avail|, cursor, j)
  }

  function Advance(n: nat, cursor: nat, pick: Option<nat>): nat {
    if pick.None? then cursor else if pick.value + 1 == n then 0 else pick.value + 1
  }

  /** At most one index is the nearest. */
  lemma PickIsUnique(avail: seq<bool>, cursor: nat, x: Option<nat>, y: Option<nat>)
    requires |avail| > 0 ==> cursor < |avail|
    requires IsPick(avail, cursor, x) && IsPick(avail, cursor, y)
    ensures x == y
  {
    if x.Some? && y.Some? {
      assert Distance(|avail|, cursor, x.value) == Distance(|avail|, cursor, y.value);
    }
  }

  class Balancer {
    const options: Options
    var targets: seq<Target>
    var cursor: nat

    ghost predicate Valid()
      reads this
    {
      |targets| > 0 ==> cursor < |targets|
    }

    constructor (urls: seq<string>, withBreaker: bool, options: Options)
      ensures Valid() && this.options == options && cursor == 0 && |targets| == |urls|
      ensures forall i ::
          0 <= i < |urls| ==> targets[i] == Target(urls[i], true, if withBreaker then Some(FRESH) else None)
    {
      this.options := options;
      targets := seq(|urls|, i requires 0 <= i < |urls| =>
                               Target(urls[i], true, if withBreaker then Some(FRESH) else None));
      cursor := 0;
    }

    /**
     Nothing changes except the chosen target's breaker and the cursor; no
     target is returned only when none is available.
     */
    method PickTarget(clock: seq<int>) returns (url: Option<string>, ghost pick: Option<nat>)
      requires Valid() && |clock| == |targets|
      modifies this
      ensures Valid()
      ensures IsPick(Availability(options, old(targets), clock), old(cursor), pick)
      ensures pick.None? ==> url.None? && targets == old(targets) && cursor == old(cursor)
      ensures pick.Some?
          ==> pick.value < |old(targets)| && IsReady(options, old(targets)[pick.value], clock[pick.value])
      ensures pick.None? ==> forall i :: 0 <= i < |targets| ==> !IsReady(options, targets[i], clock[i])
      ensures pick.Some? ==>
                && url == Some(old(targets)[pick.value].url)
                && targets == old(targets)[pick.value := Chosen(options, old(targets)[pick.value], clock[pick.value])]
                && cursor == Advance(|targets|, old(cursor), pick)
    {
      forall i | 0 <= i < |targets|
        ensures IsReady(options, targets[i], clock[i]) <==> Available(options, targets[i], clock[i])
      {
        ReadyMeansAvailable(options, targets[i], clock[i]);
      }
      hide CanRequest, IsReady;
      var n := |targets|;
      var i := 0;
      while i < n
        invariant 0 <= i <= n
        invariant targets == old(targets) && cursor == old(cursor)
        invariant forall j :: 0 <= j < n && Distance(n, cursor, j) < i ==> !Available(options, targets[j], clock[j])
      {
        ScanIndex(n, cursor, i);
        var index := (cursor + i) % n;
        var target := targets[index];
        if target.healthy {
          var asked := if target.breaker.None? then None
              else Some(CanRequest(options, target.breaker.value, clock[index]));
          if asked.None? || asked.value.1 {
            targets := targets[index := if asked.None? then target else target.(breaker := Some(asked.value.0))];
            cursor := (index + 1) % n;
            assert cursor == Advance(n, old(cursor), Some(index));
            return Some(target.url), Some(index);
          }
          RefusalChangesNothing(options, target.breaker.value, clock[index]);
        }
        i := i + 1;
      }
      return None, None;
    }

    method Report(url: string, success: bool, now: int)
      requires Valid()
      modifies this`targets
      ensures Valid() && |targets| == |old(targets)|
      ensures forall i :: 0 <= i < |targets| ==> targets[i] == Reported(options, old(targets), i, url, success, now)
    {
      var i := 0;
      while i < |targets| && targets[i].url != url
        invariant 0 <= i <= |targets|
        invariant forall j :: 0 <= j < i ==> targets[j].url != url
      {
        i := i + 1;
      }
      if i < |targets| && targets[i].breaker.Some? {
        var b := targets[i].breaker.value;
        var after := if success then RecordSuccess(b) else RecordFailure(options, b, now);
        targets := targets[i := targets[i].(breaker := Some(after))];
      }
    }
  }

  /** A report reaches the first target with that URL, and no other. */
  function Reported(o: Options, targets: seq<Target>, i: nat, url: string, success: bool, now: int): Target
    requires i < |targets|
  {
    var t := targets[i];
    if t.breaker.Some? && t.url == url && (forall j :: 0 <= j < i ==> targets[j].url != url)
    then t.(breaker := Some(if success then RecordSuccess(t.breaker.value) else RecordFailure(o, t.breaker.value, now)))
    else t
  }

  lemma RefusalChangesNothing(o: Options, b: Breaker, now: int)
    requires !CanRequest(o, b, now).1
    ensures CanRequest(o, b, now).0 == b
  {
  }

  /** The scan's `(cursor + i) % n` is the index at distance i. */
  lemma ScanIndex(n: nat, cursor: nat, i: nat)
    requires cursor < n && i < n
    ensures (cursor + i) % n == if cursor + i < n then cursor + i else cursor + i - n
    ensures ((cursor + i) % n + 1) % n == Advance(n, cursor, Some((cursor + i) % n))
  {
    Wrap(cursor + i, n);
    Wrap((cursor + i) % n + 1, n);
  }

  lemma Wrap(x: nat, n: nat)
    requires x < 2 * n
    ensures x % n == if x < n then x else x - n
  {
    if x >= n { assert x == n + (x - n) && 0 <= x - n < n; }
  }

  // ---------------------------------------------------------------- fairness

  /** A run of picks: what was available at each, whatever health checks and breakers did in between. */
  ghost predicate IsRun(n: nat, cursor: nat, avails: seq<seq<bool>>, picks: seq<Option<nat>>)
    requires cursor < n
    decreases |avails|
  {
    && |picks| == |avails|
    && (|avails| > 0 ==>
          && |avails[0]| == n && IsPick(avails[0], cursor, picks[0])
          && Advance(n, cursor, picks[0]) < n
          && IsRun(n, Advance(n, cursor, picks[0]), avails[1..], picks[1..]))
  }

  /** While j is nearer than i and both stay available, i is not picked before j. */
  lemma {:induction false} NearerIsFirst(n: nat, cursor: nat, avails: seq<seq<bool>>, picks: seq<Option<nat>>, i: nat,
      j: nat, b: nat) returns (c: nat)
    requires cursor < n && IsRun(n, cursor, avails, picks) && i < n && j < n && i != j
    requires forall k :: 0 <= k < |avails| ==> |avails[k]| == n && avails[k][i] && avails[k][j]
    requires Distance(n, cursor, j) < Distance(n, cursor, i)
    requires b < |picks| && picks[b] == Some(i)
    ensures c < b && picks[c] == Some(j)
    decreases |avails|
  {
    if picks[0] == Some(j) {
      c := 0;
    } else {
      var cursor' := Advance(n, cursor, picks[0]);
      assert b > 0 && picks[1..][b - 1] == picks[b];
      var c' := NearerIsFirst(n, cursor', avails[1..], picks[1..], i, j, b - 1);
      c := c' + 1;
    }
  }

  lemma {:induction false} RunFrom(n: nat, cursor: nat, avails: seq<seq<bool>>, picks: seq<Option<nat>>, a: nat)
      returns (cursor': nat)
    requires cursor < n && IsRun(n, cursor, avails, picks) && a <= |picks|
    ensures cursor' < n && IsRun(n, cursor', avails[a..], picks[a..])
    ensures a == 0 ==> cursor' == cursor
    ensures a > 0 && picks[a - 1].Some? ==> picks[a - 1].value < n && cursor' == Advance(n, 0, picks[a - 1])
    decreases a
  {
    if a == 0 {
      cursor' := cursor;
      assert avails[0..] == avails && picks[0..] == picks;
    } else {
      var next := Advance(n, cursor, picks[0]);
      cursor' := RunFrom(n, next, avails[1..], picks[1..], a - 1);
      assert avails[1..][a - 1..] == avails[a..] && picks[1..][a - 1..] == picks[a..];
      if a > 1 { assert picks[1..][a - 2] == picks[a - 1]; }
    }
  }

  /** Two targets available at every pick strictly alternate: between two picks of one there is one of the other. */
  lemma PicksAlternate(n: nat, cursor: nat, avails: seq<seq<bool>>, picks: seq<Option<nat>>, i: nat, j: nat, a: nat,
      b: nat) returns (c: nat)
    requires cursor < n && IsRun(n, cursor, avails, picks) && i < n && j < n && i != j
    requires forall k :: 0 <= k < |avails| ==> |avails[k]| == n && avails[k][i] && avails[k][j]
    requires a < b < |picks| && picks[a] == Some(i) && picks[b] == Some(i)
    ensures a < c < b && picks[c] == Some(j)
  {
    var cursor' := RunFrom(n, cursor, avails, picks, a + 1);
    assert picks[a + 1..][b - a - 1] == picks[b];
    var c' := NearerIsFirst(n, cursor', avails[a + 1..], picks[a + 1..], i, j, b - a - 1);
    c := a + 1 + c';
  }

  /** A target available at every one of d + 1 consecutive picks, d its distance, is chosen within them. */
  lemma {:induction false} NoStarvation(n: nat, cursor: nat, avails: seq<seq<bool>>, picks: seq<Option<nat>>, i: nat)
      returns (c: nat)
    requires cursor < n && IsRun(n, cursor, avails, picks) && i < n
    requires |avails| > Distance(n, cursor, i)
    requires forall k :: 0 <= k < |avails| ==> |avails[k]| == n && avails[k][i]
    ensures c <= Distance(n, cursor, i) && picks[c] == Some(i)
    decreases |avails|
  {
    if picks[0] == Some(i) {
      c := 0;
    } else {
      var c' := NoStarvation(n, Advance(n, cursor, picks[0]), avails[1..], picks[1..], i);
      c := c' + 1;
    }
  }

  /** In particular, within n picks, n the number of targets. */
  lemma ChosenWithinOneRound(n: nat, cursor: nat, avails: seq<seq<bool>>, picks: seq<Option<nat>>, i: nat)
    requires cursor < n && IsRun(n, cursor, avails, picks) && i < n && |avails| == n
    requires forall k :: 0 <= k < |avails| ==> |avails[k]| == n && avails[k][i]
    ensures exists c :: 0 <= c < |picks| && picks[c] == Some(i)
  {
    var c := NoStarvation(n, cursor, avails, picks, i);
  }

  /** The k-th index after the cursor, round and round. */
  function Turn(n: nat, cursor: nat, k: nat): nat
    requires cursor < n
    decreases k
  {
    if k == 0 then cursor else Turn(n, if cursor + 1 == n then 0 else cursor + 1, k - 1)
  }

  /** While all targets are available they are picked in turn, in the order of the list. */
  lemma {:induction false} AllInTurn(n: nat, cursor: nat, avails: seq<seq<bool>>, picks: seq<Option<nat>>, k: nat)
    requires cursor < n && IsRun(n, cursor, avails, picks) && k < |picks|
    requires forall avail :: avail in avails ==> |avail| == n && forall j :: 0 <= j < n ==> avail[j]
    ensures picks[k] == Some(Turn(n, cursor, k))
    decreases k
  {
    assert avails[0] in avails && avails[0][cursor] && Distance(n, cursor, cursor) == 0;
    assert picks[0] == Some(cursor);
    if k > 0 {
      AllInTurn(n, Advance(n, cursor, picks[0]), avails[1..], picks[1..], k - 1);
    }
  }
}
