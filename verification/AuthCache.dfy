/**
 API-key lookups: many gateways share a cache in front of the database, and an
 administrator may revoke the key at any moment.  One key's hash is followed;
 every Redis or SQL call is one atomic step, and the steps of any number of
 lookups and of the revoke handler interleave freely.
 */
module AuthCache {
  import opened Common

  /** How long an answer is cached, in ms. */
  const TTL := 60_000

  datatype Plan = Plan(limit: int, windowSec: int, burst: int)

  datatype Record = Record(id: string, tenantId: string, scopes: seq<string>, plan: Plan)

  datatype Row = Row(record: Record, revoked: bool, expiresAt: Option<int>, tenantActive: bool)

  /** A cached answer; None is the negative marker. */
  datatype Entry = Entry(value: Option<Record>, deadline: int)

  datatype Phase =
    | Asking                                  // before the cache is asked
    | Missed                                  // miss, cache error or no Redis: the database is next
    | Read(answer: Option<Record>)            // answered by the database, cache write outstanding
    | Done(answer: Option<Record>, at: int)
    | Failed

  datatype Revocation = NotRevoked | DeletePending | Deleted | DeleteLost

  datatype State = State(row: Option<Row>, cache: Option<Entry>, revocation: Revocation, lookups: map<nat, Phase>)

  datatype Event =
    | Begin(id: nat, at: int)
    | CacheAnswers(id: nat, at: int)
    | CacheSilent(id: nat, at: int)
    | DbAnswers(id: nat, at: int)
    | DbFails(id: nat, at: int)
    | CacheStores(id: nat, at: int)
    | CacheRefuses(id: nat, at: int)
    | CacheEvicts(at: int)
    | KeyCreated(record: Record, expiresAt: Option<int>, at: int)
    | TenantChanged(active: bool, plan: Plan, at: int)
    | RowRevoked(at: int)
    | CacheDeletes(at: int)
    | DeleteFails(at: int)

  const START := State(None, None, NotRevoked, map[])

  function FindActive(row: Option<Row>, now: int): Option<Record> {
    if row.Some? && !row.value.revoked && (row.value.expiresAt.None? || row.value.expiresAt.value > now)
        && row.value.tenantActive
    then Some(row.value.record) else None
  }

  /** Redis decides whether a key still answers at the very instant its time is up. */
  predicate Live(keeps: bool, cache: Option<Entry>, now: int) {
    cache.Some? && (now < cache.value.deadline || (keeps && now == cache.value.deadline))
  }

  predicate In(s: State, id: nat, p: Phase) {
    id in s.lookups && s.lookups[id] == p
  }

  function Moved(s: State, id: nat, p: Phase): State {
    s.(lookups := s.lookups[id := p])
  }

  /** An event that its sender could not have produced in this state changes nothing. */
  function Step(keeps: bool, s: State, e: Event): State {
    match e
    case Begin(id, _) => if id in s.lookups then s else Moved(s, id, Asking)
    case CacheAnswers(id, at) =>
      if !In(s, id, Asking) then s
      else if Live(keeps, s.cache, at) then Moved(s, id, Done(s.cache.value.value, at))
      else Moved(s, id, Missed)
    case CacheSilent(id, _) => if In(s, id, Asking) then Moved(s, id, Missed) else s
    case DbAnswers(id, at) => if In(s, id, Missed) then Moved(s, id, Read(FindActive(s.row, at))) else s
    case DbFails(id, _) => if In(s, id, Missed) then Moved(s, id, Failed) else s
    case CacheStores(id, at) =>
      if id in s.lookups && s.lookups[id].Read? then
        var answer := s.lookups[id].answer;
        Moved(s, id, Done(answer, at)).(cache := Some(Entry(answer, at + TTL)))
      else s
    case CacheRefuses(id, at) =>
      if id in s.lookups && s.lookups[id].Read? then Moved(s, id, Done(s.lookups[id].answer, at)) else s
    case CacheEvicts(_) => s.(cache := None)
    case KeyCreated(record, expiresAt, _) =>
      if s.row.Some? then s else s.(row := Some(Row(record, false, expiresAt, true)))
    case TenantChanged(active, plan, _) =>
      if s.row.None? then s
      else s.(row := Some(s.row.value.(tenantActive := active, record := s.row.value.record.(plan := plan))))
    case RowRevoked(_) =>
      if s.row.None? || s.row.value.revoked then s
      else s.(row := Some(s.row.value.(revoked := true)), revocation := DeletePending)
    case CacheDeletes(_) =>
      if s.revocation.DeletePending? then s.(cache := None, revocation := Deleted) else s
    case DeleteFails(_) =>
      if s.revocation.DeletePending? then s.(revocation := DeleteLost) else s
  }

  function From(keeps: bool, s: State, h: seq<Event>): State {
    if |h| == 0 then s else Step(keeps, From(keeps, s, Front(h)), Last(h))
  }

  function After(keeps: bool, h: seq<Event>): State {
    From(keeps, START, h)
  }

  predicate InOrder(h: seq<Event>) {
    forall i, j :: 0 <= i < j < |h| ==> h[i].at <= h[j].at
  }

  lemma {:induction false} FromSplits(keeps: bool, s: State, h: seq<Event>, z: seq<Event>)
    ensures From(keeps, s, h + z) == From(keeps, From(keeps, s, h), z)
  {
    hide Step;
    if |z| == 0 {
      assert h + z == h;
    } else {
      assert Front(h + z) == h + Front(z);
      FromSplits(keeps, s, h, Front(z));
    }
  }

  // ------------------------------------------------ where an answer comes from

  /** Event k is lookup id's database read, and it returned this answer. */
  ghost predicate ReadBy(keeps: bool, h: seq<Event>, k: int, id: nat, answer: Option<Record>) {
    && 0 <= k < |h| && h[k].DbAnswers? && h[k].id == id
    && var s := After(keeps, h[..k]);
       In(s, id, Missed) && FindActive(s.row, h[k].at) == answer
  }

  /** Event j ends lookup id, which read this answer at event k: with a cache write, if stored. */
  ghost predicate EndsWith(keeps: bool, h: seq<Event>, k: int, j: int, id: nat, answer: Option<Record>, stored: bool) {
    && 0 <= k < j < |h| && ReadBy(keeps, h, k, id, answer)
    && (h[j] == CacheStores(id, h[j].at) || (!stored && h[j] == CacheRefuses(id, h[j].at)))
  }

  ghost predicate Stored(keeps: bool, h: seq<Event>, k: int, j: int, answer: Option<Record>) {
    0 <= k < |h| && h[k].DbAnswers? && EndsWith(keeps, h, k, j, h[k].id, answer, true)
  }

  /**
   The lookup read the answer itself and gave it out at its own last step, or
   found it in the cache no later than 60 s after another lookup, having read
   it, wrote it there.
   */
  ghost predicate Grounded(keeps: bool, h: seq<Event>, id: nat, answer: Option<Record>, at: int) {
    || (exists k, j :: EndsWith(keeps, h, k, j, id, answer, false) && at == h[j].at)
    || (exists k, j :: Stored(keeps, h, k, j, answer) && h[j].at <= at <= h[j].at + 60_000)
  }

  ghost predicate PhaseOk(keeps: bool, h: seq<Event>, id: nat, p: Phase) {
    && (p.Read? ==> exists k :: ReadBy(keeps, h, k, id, p.answer))
    && (p.Done? ==> Grounded(keeps, h, id, p.answer, p.at))
  }

  ghost predicate CacheOk(keeps: bool, h: seq<Event>, cache: Option<Entry>) {
    cache.Some? ==> exists k, j :: Stored(keeps, h, k, j, cache.value.value) && cache.value.deadline == h[j].at + 60_000
  }

  lemma ReadByGrows(keeps: bool, h: seq<Event>, e: Event, k: int, id: nat, answer: Option<Record>)
    requires ReadBy(keeps, h, k, id, answer)
    ensures ReadBy(keeps, h + [e], k, id, answer)
  {
    hide After, FindActive;
    assert (h + [e])[..k] == h[..k];
  }

  lemma PhaseOkGrows(keeps: bool, h: seq<Event>, e: Event, id: nat, p: Phase)
    requires PhaseOk(keeps, h, id, p)
    ensures PhaseOk(keeps, h + [e], id, p)
  {
    hide ReadBy;
    if p.Read? {
      var k :| ReadBy(keeps, h, k, id, p.answer);
      ReadByGrows(keeps, h, e, k, id, p.answer);
    } else if p.Done? {
      if k, j :| EndsWith(keeps, h, k, j, id, p.answer, false) && p.at == h[j].at {
        ReadByGrows(keeps, h, e, k, id, p.answer);
        assert EndsWith(keeps, h + [e], k, j, id, p.answer, false);
      } else {
        var k, j :| Stored(keeps, h, k, j, p.answer) && h[j].at <= p.at <= h[j].at + 60_000;
        ReadByGrows(keeps, h, e, k, h[k].id, p.answer);
        assert Stored(keeps, h + [e], k, j, p.answer);
      }
    }
  }

  lemma CacheOkGrows(keeps: bool, h: seq<Event>, e: Event, cache: Option<Entry>)
    requires CacheOk(keeps, h, cache)
    ensures CacheOk(keeps, h + [e], cache)
  {
    hide ReadBy;
    if cache.Some? {
      var k, j :| Stored(keeps, h, k, j, cache.value.value) && cache.value.deadline == h[j].at + 60_000;
      ReadByGrows(keeps, h, e, k, h[k].id, cache.value.value);
      assert Stored(keeps, h + [e], k, j, cache.value.value);
    }
  }

  /** The one phase an event changes is accounted for by the events so far. */
  lemma NewPhaseOk(keeps: bool, h: seq<Event>, e: Event, id: nat)
    requires InOrder(h + [e])
    requires var s := After(keeps, h); CacheOk(keeps, h, s.cache) && forall i ::
        i in s.lookups ==> PhaseOk(keeps, h, i, s.lookups[i])
    requires var s, s' := After(keeps, h), Step(keeps, After(keeps, h), e);
             id in s'.lookups && (id !in s.lookups || s'.lookups[id] != s.lookups[id])
    ensures PhaseOk(keeps, h + [e], id, Step(keeps, After(keeps, h), e).lookups[id])
  {
    hide After, From, FindActive;
    var s, n, g := After(keeps, h), |h|, h + [e];
    assert g[..n] == h && g[n] == e;
    match e {
      case DbAnswers(_, at) =>
        assert ReadBy(keeps, g, n, id, FindActive(s.row, at));
      case CacheAnswers(_, at) =>
        if Live(keeps, s.cache, at) {
          CacheOkGrows(keeps, h, e, s.cache);
          var k, j :| Stored(keeps, g, k, j, s.cache.value.value) && s.cache.value.deadline == g[j].at + TTL;
          assert g[j].at <= g[n].at;
        }
      case CacheStores(_, at) =>
        var k :| ReadBy(keeps, h, k, id, s.lookups[id].answer);
        ReadByGrows(keeps, h, e, k, id, s.lookups[id].answer);
        assert EndsWith(keeps, g, k, n, id, s.lookups[id].answer, false);
      case CacheRefuses(_, at) =>
        var k :| ReadBy(keeps, h, k, id, s.lookups[id].answer);
        ReadByGrows(keeps, h, e, k, id, s.lookups[id].answer);
        assert EndsWith(keeps, g, k, n, id, s.lookups[id].answer, false);
      case _ =>
    }
  }

  lemma NewCacheOk(keeps: bool, h: seq<Event>, e: Event)
    requires var s := After(keeps, h); CacheOk(keeps, h, s.cache) && forall i ::
        i in s.lookups ==> PhaseOk(keeps, h, i, s.lookups[i])
    ensures CacheOk(keeps, h + [e], Step(keeps, After(keeps, h), e).cache)
  {
    hide After, From, FindActive, ReadBy;
    var s, n, g := After(keeps, h), |h|, h + [e];
    CacheOkGrows(keeps, h, e, s.cache);
    if e.CacheStores? && e.id in s.lookups && s.lookups[e.id].Read? {
      var answer := s.lookups[e.id].answer;
      var k :| ReadBy(keeps, h, k, e.id, answer);
      ReadByGrows(keeps, h, e, k, e.id, answer);
      assert 0 <= k < n && h[k].id == e.id && g[k] == h[k] by { ReadByShape(keeps, h, k, e.id, answer); }
      assert EndsWith(keeps, g, k, n, e.id, answer, true);
      ReadByShape(keeps, h, k, e.id, answer);
      assert Stored(keeps, g, k, n, answer);
    }
  }

  lemma ReadByShape(keeps: bool, h: seq<Event>, k: int, id: nat, answer: Option<Record>)
    requires ReadBy(keeps, h, k, id, answer)
    ensures 0 <= k < |h| && h[k].DbAnswers? && h[k].id == id
  {}

  lemma {:induction false} EverythingGrounded(keeps: bool, h: seq<Event>)
    requires InOrder(h)
    ensures var s := After(keeps, h); CacheOk(keeps, h, s.cache) && forall i ::
        i in s.lookups ==> PhaseOk(keeps, h, i, s.lookups[i])
  {
    hide Step, PhaseOk, CacheOk;
    if |h| == 0 {
      assert CacheOk(keeps, h, None) by { CacheOkEmpty(keeps, h); }
    } else {
      var g, e := Front(h), Last(h);
      assert h == g + [e];
      EverythingGrounded(keeps, g);
      var s := After(keeps, g);
      NewCacheOk(keeps, g, e);
      forall i | i in Step(keeps, s, e).lookups ensures PhaseOk(keeps, h, i, Step(keeps, s, e).lookups[i]) {
        if i in s.lookups && Step(keeps, s, e).lookups[i] == s.lookups[i] {
          PhaseOkGrows(keeps, g, e, i, s.lookups[i]);
        } else {
          NewPhaseOk(keeps, g, e, i);
        }
      }
    }
  }

  lemma CacheOkEmpty(keeps: bool, h: seq<Event>)
    ensures CacheOk(keeps, h, None)
  {}

  /**
   Bounded staleness: on every interleaving each answer given out (an
   acceptance or a rejection) is what some database read of this run returned,
   at most 60 s plus the reader's own delay between its read and its cache
   write earlier (or the lookup's own delay, when it read itself).
   */
  lemma AnswersAreGrounded(keeps: bool, h: seq<Event>, id: nat)
    requires InOrder(h) && id in After(keeps, h).lookups && After(keeps, h).lookups[id].Done?
    ensures var p := After(keeps, h).lookups[id]; Grounded(keeps, h, id, p.answer, p.at)
  {
    hide After, Grounded;
    EverythingGrounded(keeps, h);
  }

  // ----------------------------------------------------------- what is cached

  /** An event that changes what is cached, as far as its kind tells. */
  predicate MayTouchCache(e: Event) {
    e.CacheStores? || e.CacheEvicts? || e.CacheDeletes?
  }

  lemma {:induction false} CacheStays(keeps: bool, h: seq<Event>, j: nat, n: nat, answer: Option<Record>)
    requires j < n <= |h| && h[j].CacheStores? && In(After(keeps, h[..j]), h[j].id, Read(answer))
    requires forall i :: j < i < n ==> !MayTouchCache(h[i])
    ensures After(keeps, h[..n]).cache == Some(Entry(answer, h[j].at + 60_000))
    decreases n
  {
    assert Front(h[..n]) == h[..n - 1] && Last(h[..n]) == h[n - 1];
    if j < n - 1 { CacheStays(keeps, h, j, n - 1, answer); }
  }

  /**
   An answer written to the cache at t, and not deleted, evicted or written over
   since, answers every lookup that asks the cache before t + 60 s, and none that
   asks later.
   */
  lemma CachedAnswersLastAMinute(keeps: bool, h: seq<Event>, j: nat, n: nat, answer: Option<Record>)
    requires j < n < |h| && h[j].CacheStores? && In(After(keeps, h[..j]), h[j].id, Read(answer))
    requires forall i :: j < i < n ==> !MayTouchCache(h[i])
    requires h[n].CacheAnswers? && In(After(keeps, h[..n]), h[n].id, Asking)
    ensures h[n].at < h[j].at + 60_000 ==> In(After(keeps, h[..n + 1]), h[n].id, Done(answer, h[n].at))
    ensures h[n].at > h[j].at + 60_000 ==> In(After(keeps, h[..n + 1]), h[n].id, Missed)
  {
    CacheStays(keeps, h, j, n, answer);
    assert Front(h[..n + 1]) == h[..n] && Last(h[..n + 1]) == h[n];
  }

  // ------------------------------------------------------------- revocation

  predicate RevokedIn(s: State) {
    s.row.Some? && s.row.value.revoked
  }

  lemma {:induction false} RevokedForever(keeps: bool, h: seq<Event>, i: nat, k: nat)
    requires i <= k <= |h| && RevokedIn(After(keeps, h[..i]))
    ensures RevokedIn(After(keeps, h[..k]))
  {
    if i < k {
      RevokedForever(keeps, h, i, k - 1);
      assert Front(h[..k]) == h[..k - 1];
    }
  }

  /** Every lookup of the run writes the cache, or fails to, within d ms of its database read. */
  predicate Prompt(h: seq<Event>, d: nat) {
    forall k, j ::
      0 <= k < j < |h| && h[k].DbAnswers? && (h[j].CacheStores? || h[j].CacheRefuses?) && h[j].id == h[k].id
      ==> h[j].at <= h[k].at + d
  }

  /**
   Revocation takes hold by itself, even if the cache delete is lost: if every
   lookup finishes within d ms of its database read, nothing is accepted later
   than 60 s + d after the row was revoked.
   */
  lemma RevocationTakesHold(keeps: bool, h: seq<Event>, i: nat, d: nat, id: nat)
    requires InOrder(h) && Prompt(h, d) && i < |h| && RevokedIn(After(keeps, h[..i + 1]))
    requires id in After(keeps, h).lookups && After(keeps, h).lookups[id].Done?
        && After(keeps, h).lookups[id].answer.Some?
    ensures After(keeps, h).lookups[id].at <= h[i].at + 60_000 + d
  {
    hide After, ReadBy, RevokedIn;
    AnswersAreGrounded(keeps, h, id);
    var p := After(keeps, h).lookups[id];
    if k, j :| EndsWith(keeps, h, k, j, id, p.answer, false) && p.at == h[j].at {
      ReadBeforeRevoke(keeps, h, i, k, id, p.answer);
    } else {
      var k, j :| Stored(keeps, h, k, j, p.answer) && h[j].at <= p.at <= h[j].at + 60_000;
      ReadBeforeRevoke(keeps, h, i, k, h[k].id, p.answer);
    }
  }

  /** A read that saw the key active happened before the row was revoked. */
  lemma ReadBeforeRevoke(keeps: bool, h: seq<Event>, i: nat, k: int, id: nat, answer: Option<Record>)
    requires InOrder(h) && i < |h| && RevokedIn(After(keeps, h[..i + 1]))
    requires ReadBy(keeps, h, k, id, answer) && answer.Some?
    ensures 0 <= k <= i && h[k].at <= h[i].at && h[k].DbAnswers? && h[k].id == id
  {
    hide After;
    if k > i { RevokedForever(keeps, h, i + 1, k); }
  }

  /**
   At database read k the row was there, unrevoked, unexpired and its tenant
   active, with this very record - or, for a rejection, was not.
   */
  ghost predicate RowSaid(keeps: bool, h: seq<Event>, k: int, answer: Option<Record>) {
    && 0 <= k < |h| && h[k].DbAnswers?
    && var row := After(keeps, h[..k]).row;
       && (answer.Some? <==> row.Some? && !row.value.revoked && row.value.tenantActive
                             && (row.value.expiresAt.Some? ==> h[k].at < row.value.expiresAt.value))
       && (answer.Some? ==> answer.value == row.value.record)
  }

  lemma ReadMeansRow(keeps: bool, h: seq<Event>, k: int, id: nat, answer: Option<Record>)
    requires ReadBy(keeps, h, k, id, answer)
    ensures RowSaid(keeps, h, k, answer) && 0 <= k < |h| && h[k].DbAnswers? && h[k].id == id
  {
    hide After;
  }

  /** Event k created the key: the first to do so. */
  ghost predicate CreatedAt(h: seq<Event>, k: int) {
    0 <= k < |h| && h[k].KeyCreated? && forall i :: 0 <= i < k ==> !h[i].KeyCreated?
  }

  /** The newest change of the key's tenant after event k. */
  ghost predicate ChangedAt(h: seq<Event>, k: int, j: int) {
    0 <= k < j < |h| && h[j].TenantChanged? && forall i :: j < i < |h| ==> !h[i].TenantChanged?
  }

  /**
   What the row holds is what the administration did: the key as first created,
   revoked by any later revoke, with its tenant's newest status and plan.
   */
  lemma {:induction false} RowIsItsHistory(keeps: bool, h: seq<Event>, k: int)
    requires CreatedAt(h, k)
    ensures After(keeps, h).row.Some?
    ensures var row, created := After(keeps, h).row.value, h[k].record;
            && row.expiresAt == h[k].expiresAt
            && row.record == created.(plan := row.record.plan)
            && (row.revoked <==> exists i :: k < i < |h| && h[i].RowRevoked?)
            && (forall j :: ChangedAt(h, k, j) ==> row.tenantActive == h[j].active && row.record.plan == h[j].plan)
            && ((forall j :: k < j < |h| ==> !h[j].TenantChanged?) ==> row.tenantActive && row.record == created)
  {
    var front, e := Front(h), Last(h);
    assert e == h[|h| - 1] && forall i :: 0 <= i < |front| ==> front[i] == h[i];
    if k < |h| - 1 {
      RowIsItsHistory(keeps, front, k);
      forall j | ChangedAt(h, k, j) && j < |h| - 1 ensures ChangedAt(front, k, j) {}
    } else {
      NoRowBeforeCreation(keeps, front);
    }
  }

  lemma {:induction false} NoRowBeforeCreation(keeps: bool, h: seq<Event>)
    requires forall i :: 0 <= i < |h| ==> !h[i].KeyCreated?
    ensures After(keeps, h).row.None?
  {
    if |h| > 0 { NoRowBeforeCreation(keeps, Front(h)); }
  }

  /**
   What an answer tells about the key, when lookups finish within d ms of their
   read: it is what the row said at an instant of this run at most 60 s + d earlier.
   */
  lemma AnswersReflectTheRow(keeps: bool, h: seq<Event>, d: nat, id: nat)
    requires InOrder(h) && Prompt(h, d) && id in After(keeps, h).lookups && After(keeps, h).lookups[id].Done?
    ensures var p := After(keeps, h).lookups[id];
            exists k :: 0 <= k < |h| && RowSaid(keeps, h, k, p.answer) && h[k].at <= p.at <= h[k].at + 60_000 + d
  {
    hide After, ReadBy, RowSaid, FindActive, Step;
    AnswersAreGrounded(keeps, h, id);
    var p := After(keeps, h).lookups[id];
    if k, j :| EndsWith(keeps, h, k, j, id, p.answer, false) && p.at == h[j].at {
      ReadMeansRow(keeps, h, k, id, p.answer);
      assert h[k].at <= h[j].at <= h[k].at + d;
    } else {
      var k, j :| Stored(keeps, h, k, j, p.answer) && h[j].at <= p.at <= h[j].at + 60_000;
      ReadMeansRow(keeps, h, k, h[k].id, p.answer);
      assert h[k].at <= h[j].at <= h[k].at + d;
    }
  }

  /** No outstanding lookup holds an answer read while the key was still active. */
  predicate Quiet(s: State) {
    forall id :: id in s.lookups && s.lookups[id].Read? ==> s.lookups[id].answer.None?
  }

  predicate Sealed(s: State) {
    RevokedIn(s) && Quiet(s) && (s.cache.Some? ==> s.cache.value.value.None?)
  }

  predicate Accepts(s: State, id: nat) {
    id in s.lookups && s.lookups[id].Done? && s.lookups[id].answer.Some?
  }

  lemma SealedStep(keeps: bool, s: State, e: Event)
    requires Sealed(s)
    ensures Sealed(Step(keeps, s, e))
    ensures forall id :: Accepts(Step(keeps, s, e), id) ==> Accepts(s, id)
  {
    var s' := Step(keeps, s, e);
    assert forall id :: id in s'.lookups && !(id in s.lookups && s'.lookups[id] == s.lookups[id]) ==>
                          !Accepts(s', id) && (s'.lookups[id].Read? ==> s'.lookups[id].answer.None?);
  }

  lemma {:induction false} SealedForever(keeps: bool, s: State, z: seq<Event>)
    requires Sealed(s)
    ensures Sealed(From(keeps, s, z))
    ensures forall id :: Accepts(From(keeps, s, z), id) ==> Accepts(s, id)
  {
    hide Step, Sealed, Accepts;
    if |z| > 0 {
      SealedForever(keeps, s, Front(z));
      SealedStep(keeps, From(keeps, s, Front(z)), Last(z));
    }
  }

  /** A lookup begun after the run h, and accepted on the continuation z. */
  ghost predicate LateAcceptance(keeps: bool, h: seq<Event>, z: seq<Event>, id: nat) {
    InOrder(h + z) && id !in After(keeps, h).lookups && Accepts(After(keeps, h + z), id)
  }

  predicate JustDeleted(keeps: bool, h: seq<Event>) {
    |h| > 0 && Last(h).CacheDeletes? && After(keeps, Front(h)).revocation.DeletePending?
  }

  lemma {:induction false} PendingMeansRevoked(keeps: bool, h: seq<Event>)
    ensures !After(keeps, h).revocation.NotRevoked? ==> RevokedIn(After(keeps, h))
  {
    if |h| > 0 { PendingMeansRevoked(keeps, Front(h)); }
  }

  lemma FromTwo(keeps: bool, s: State, a: Event, b: Event)
    ensures From(keeps, s, [a, b]) == Step(keeps, Step(keeps, s, a), b)
  {
    hide Step;
    assert Front([a, b]) == [a] && Front([a]) == [];
    assert From(keeps, s, [a]) == Step(keeps, s, a);
  }

  lemma FromThree(keeps: bool, s: State, a: Event, b: Event, c: Event)
    ensures From(keeps, s, [a, b, c]) == Step(keeps, Step(keeps, Step(keeps, s, a), b), c)
  {
    hide Step;
    assert Front([a, b, c]) == [a, b];
    FromTwo(keeps, s, a, b);
  }

  /** An outstanding answer read before the revoke can be written back after the delete, and then served. */
  lemma LateWriteRevives(keeps: bool, h: seq<Event>, stale: nat)
    requires InOrder(h) && JustDeleted(keeps, h)
    requires var s := After(keeps, h); stale in s.lookups && s.lookups[stale].Read? && s.lookups[stale].answer.Some?
    ensures exists z, id :: LateAcceptance(keeps, h, z, id)
  {
    var s, t := After(keeps, h), Last(h).at;
    var id := Unused(s.lookups.Keys);
    assert forall i :: i in s.lookups ==> i in s.lookups.Keys;
    var s1 := Step(keeps, s, CacheStores(stale, t));
    var s2 := Step(keeps, s1, Begin(id, t));
    var s3 := Step(keeps, s2, CacheAnswers(id, t));
    var z := [CacheStores(stale, t), Begin(id, t), CacheAnswers(id, t)];
    FromThree(keeps, s, z[0], z[1], z[2]);
    FromSplits(keeps, START, h, z);
    assert LateAcceptance(keeps, h, z, id);
  }

  /**
   When revoke's cache delete succeeds, no lookup begun afterwards can ever be
   accepted, on any continuation, if and only if no lookup is outstanding with
   an answer it read while the key was active.
   */
  lemma RevokeIsFinalExactlyWhenQuiet(keeps: bool, h: seq<Event>)
    requires InOrder(h) && JustDeleted(keeps, h)
    ensures Quiet(After(keeps, h)) <==> !exists z, id :: LateAcceptance(keeps, h, z, id)
  {
    hide InOrder;
    var s := After(keeps, h);
    if Quiet(s) {
      PendingMeansRevoked(keeps, Front(h));
      assert Sealed(s);
      forall z, id ensures !LateAcceptance(keeps, h, z, id) {
        SealedForever(keeps, s, z);
        FromSplits(keeps, START, h, z);
      }
    } else {
      var stale :| stale in s.lookups && s.lookups[stale].Read? && s.lookups[stale].answer.Some?;
      LateWriteRevives(keeps, h, stale);
    }
  }

  predicate AdminOnly(z: seq<Event>) {
    forall i :: 0 <= i < |z| ==> z[i].RowRevoked? || z[i].CacheDeletes? || z[i].DeleteFails?
  }

  lemma {:induction false} RetriesChangeNothing(keeps: bool, s: State, z: seq<Event>)
    requires RevokedIn(s) && s.revocation.DeleteLost? && AdminOnly(z)
    ensures From(keeps, s, z) == s
  {
    if |z| > 0 { RetriesChangeNothing(keeps, s, Front(z)); }
  }

  /**
   A lost cache delete cannot be repaired by revoking again: the row is already
   revoked, so the handler answers 404 without touching the cache, and a cached
   record is served until its own 60 s are over.
   */
  lemma LostDeleteIsNotRepaired(keeps: bool, h: seq<Event>, z: seq<Event>, id: nat, now: int)
    requires var s := After(keeps, h);
             s.revocation.DeleteLost? && s.cache.Some? && now < s.cache.value.deadline && id !in s.lookups
    requires InOrder(h) && AdminOnly(z)
    ensures exists k, j ::
      Stored(keeps, h, k, j, After(keeps, h).cache.value.value)
          && After(keeps, h).cache.value.deadline == h[j].at + 60_000
    ensures In(After(keeps, h + z + [Begin(id, now), CacheAnswers(id, now)]), id,
        Done(After(keeps, h).cache.value.value, now))
  {
    EverythingGrounded(keeps, h);
    hide After;
    var s := After(keeps, h);
    PendingMeansRevoked(keeps, h);
    AfterContinues(keeps, h, z);
    RetriesChangeNothing(keeps, s, z);
    AfterContinues(keeps, h + z, [Begin(id, now), CacheAnswers(id, now)]);
    FromTwo(keeps, s, Begin(id, now), CacheAnswers(id, now));
  }

  lemma AfterContinues(keeps: bool, h: seq<Event>, z: seq<Event>)
    ensures After(keeps, h + z) == From(keeps, After(keeps, h), z)
  {
    FromSplits(keeps, START, h, z);
  }
}

/** The two handlers as the gateway and the admin API run them, step by step on the shared stores. */
module AuthHandlers {
  import opened Common
  import opened AuthCache

  /** Which of the calls to the shared stores go wrong during one request. */
  datatype Faults = Faults(hasRedis: bool, getFails: bool, setFails: bool, delFails: bool, dbFails: bool)

  function LookupEvents(id: nat, asked: int, read: int, written: int, f: Faults): seq<Event> {
    [ Begin(id, asked),
      if f.hasRedis && !f.getFails then CacheAnswers(id, asked) else CacheSilent(id, asked),
      if f.dbFails then DbFails(id, read) else DbAnswers(id, read),
      if f.hasRedis && !f.setFails then CacheStores(id, written) else CacheRefuses(id, written) ]
  }

  function RevokeEvents(s: State, updated: int, deleted: int, f: Faults): seq<Event> {
    [RowRevoked(updated)]
    + if s.row.None? || s.row.value.revoked then []
      else if f.hasRedis && !f.delFails then [CacheDeletes(deleted)] else [DeleteFails(deleted)]
  }

  lemma FromFour(keeps: bool, s: State, a: Event, b: Event, c: Event, d: Event)
    ensures From(keeps, s, [a, b, c, d]) == Step(keeps, Step(keeps, Step(keeps, Step(keeps, s, a), b), c), d)
  {
    hide Step;
    assert Front([a, b, c, d]) == [a, b, c];
    FromThree(keeps, s, a, b, c);
  }

  lemma FromOne(keeps: bool, s: State, a: Event)
    ensures From(keeps, s, [a]) == Step(keeps, s, a)
  {
    hide Step;
    assert Front([a]) == [];
  }

  class Backend {
    var row: Option<Row>
    var cache: Option<Entry>
    var revocation: Revocation
    /** When the key was last used by a lookup that went to the database. */
    var lastUsed: Option<int>

    constructor ()
      ensures View(map[]) == START && lastUsed == None
    {
      row, cache, revocation, lastUsed := None, None, NotRevoked, None;
    }

    ghost function View(lookups: map<nat, Phase>): State
      reads this
    {
      State(row, cache, revocation, lookups)
    }

    /**
     Cache first, then the database, then the cache is filled; an unreachable
     cache never fails the request. The key's last use is noted, at `touched`,
     exactly when the database, and not the cache, said it is active.
     */
    method LookupApiKey(keeps: bool, id: nat, asked: int, read: int, written: int, touched: int, f: Faults)
        returns (outcome: Phase)
      modifies this`cache, this`lastUsed
      ensures View(map[id := outcome]) == From(keeps, old(View(map[])), LookupEvents(id, asked, read, written, f))
      ensures outcome.Failed? ==> f.dbFails
      ensures var hit := f.hasRedis && !f.getFails && Live(keeps, old(cache), asked);
              lastUsed == if !hit && !f.dbFails && FindActive(row, read).Some? then Some(touched) else old(lastUsed)
    {
      ghost var s, es := View(map[]), LookupEvents(id, asked, read, written, f);
      FromFour(keeps, s, es[0], es[1], es[2], es[3]);
      ghost var s1 := Step(keeps, s, es[0]);
      assert s1.lookups == map[id := Asking];
      if f.hasRedis && !f.getFails {
        if Live(keeps, cache, asked) {
          var cached := cache.value.value;
          outcome := Done(cached, asked);
          assert Step(keeps, s1, es[1]).lookups == map[id := outcome];
          return;
        }
      }
      ghost var s2 := Step(keeps, s1, es[1]);
      assert s2.lookups == map[id := Missed];
      if f.dbFails {
        outcome := Failed;
        assert Step(keeps, s2, es[2]).lookups == map[id := outcome];
        return;
      }
      var record := FindActive(row, read);
      ghost var s3 := Step(keeps, s2, es[2]);
      assert s3.lookups == map[id := Read(record)];
      if f.hasRedis && !f.setFails {
        cache := Some(Entry(record, written + TTL));
      }
      if record.Some? {
        lastUsed := Some(touched);
      }
      outcome := Done(record, written);
      assert Step(keeps, s3, es[3]).lookups == map[id := outcome];
    }

    /** DELETE /keys/:keyId: the row first, and the cache entry only if this call revoked the row. */
    method RevokeKey(keeps: bool, updated: int, deleted: int, f: Faults) returns (status: int)
      modifies this
      ensures View(map[]) == From(keeps, old(View(map[])), RevokeEvents(old(View(map[])), updated, deleted, f))
      ensures status == 404 <==> old(row).None? || old(row).value.revoked
      ensures status == 404 ==> unchanged(this)
      ensures status == 204 ==> RevokedIn(View(map[])) && (f.hasRedis ==> cache.None?)
    {
      ghost var s, es := View(map[]), RevokeEvents(View(map[]), updated, deleted, f);
      FromOne(keeps, s, es[0]);
      if row.None? || row.value.revoked {
        return 404;
      }
      FromTwo(keeps, s, es[0], es[1]);
      row, revocation := Some(row.value.(revoked := true)), DeletePending;
      if f.hasRedis {
        if f.delFails {
          revocation := DeleteLost;
          return 500;
        }
        cache, revocation := None, Deleted;
      } else {
        revocation := DeleteLost;
      }
      status := 204;
    }
  }
}
