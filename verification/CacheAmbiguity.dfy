/**
 Where the cache key stops telling requests apart. VariantIsInjective needs
 tenant ids, hosts and vary values without a bar; here each of these fields is
 shown to need it by itself, on every route whose key it is part of.
 */
module CacheAmbiguity {
  import opened Common
  import opened Text
  import opened CacheKeys

  /** The fields of a request that follow the query in the variant; headers by their lower-case name. */
  datatype Field = TenantId | Host | Vary(name: string)

  ghost predicate Keyed(rt: Runtime, route: Route, f: Field) {
    match f
    case TenantId => true
    case Host => route.hostBound
    case Vary(name) => exists i :: 0 <= i < |route.varyBy| && rt.lower(route.varyBy[i]) == name
  }

  predicate HasBar(route: Route, r: Request, f: Field) {
    match f
    case TenantId => '|' in TenantPart(r)
    case Host => '|' in HostPart(route, r)
    case Vary(name) => '|' in HeaderText(r, name)
  }

  /** Of the keyed fields only these may hold a bar. Queries always may. */
  ghost predicate Within(rt: Runtime, route: Route, fields: set<Field>, r: Request) {
    '|' !in r.verb && forall f :: Keyed(rt, route, f) && HasBar(route, r, f) ==> f in fields
  }

  lemma WithinNoneIsBarFree(rt: Runtime, route: Route, r: Request)
    ensures Within(rt, route, {}, r) <==> BarFree(rt, route, r)
  {
    if Within(rt, route, {}, r) {
      assert Keyed(rt, route, TenantId) && !HasBar(route, r, TenantId);
      assert '|' !in HostPart(route, r) by {
        if route.hostBound { assert Keyed(rt, route, Host) && !HasBar(route, r, Host); }
      }
      forall i | 0 <= i < |route.varyBy| ensures '|' !in VaryValue(rt, r, route.varyBy[i]) {
        assert Keyed(rt, route, Vary(rt.lower(route.varyBy[i]))) && !HasBar(route, r, Vary(rt.lower(route.varyBy[i])));
      }
    }
    if BarFree(rt, route, r) {
      forall f | Keyed(rt, route, f) ensures !HasBar(route, r, f) {
        if f.Vary? {
          var i :| 0 <= i < |route.varyBy| && rt.lower(route.varyBy[i]) == f.name;
          assert '|' !in VaryValue(rt, r, route.varyBy[i]);
        }
      }
    }
  }

  // --------------------------------------------------------------- joined text

  /** The parts that follow the query in a request's variant. */
  function Tail(rt: Runtime, route: Route, r: Request): (parts: seq<string>)
    ensures |parts| == |route.varyBy| + 2
  {
    [TenantPart(r), HostPart(route, r)] + VaryParts(rt, route.varyBy, r)
  }

  lemma VariantIsHeadAndTail(rt: Runtime, route: Route, r: Request)
    ensures Variant(rt, route, r) == Join([r.verb] + [QueryOf(r.url)] + Tail(rt, route, r), '|')
  {
    assert [r.verb, QueryOf(r.url), TenantPart(r), HostPart(route, r)] + VaryParts(rt, route.varyBy, r)
        == [r.verb] + [QueryOf(r.url)] + Tail(rt, route, r);
  }

  lemma JoinOne(s: string)
    ensures Join([s], '|') == s
  {}

  /** A part that is itself joined text reads like its own parts. */
  lemma JoinNested(x: seq<string>, y: seq<string>, z: seq<string>)
    requires |y| >= 1
    ensures Join(x + [Join(y, '|')] + z, '|') == Join(x + y + z, '|')
  {
    var long := Join(y, '|');
    JoinOne(long);
    hide Join;
    if |z| > 0 {
      JoinAppend([long], z, '|');
      JoinAppend(y, z, '|');
    } else {
      assert [long] + z == [long] && y + z == y;
    }
    assert Join([long] + z, '|') == Join(y + z, '|');
    assert x + [long] + z == x + ([long] + z) && x + y + z == x + (y + z);
    if |x| > 0 {
      JoinAppend(x, [long] + z, '|');
      JoinAppend(x, y + z, '|');
    } else {
      assert x + ([long] + z) == [long] + z && x + (y + z) == y + z;
    }
  }

  lemma QueryReplaced(url: string, query: string)
    ensures PathOf(PathOf(url) + "?" + query) == PathOf(url) && QueryOf(PathOf(url) + "?" + query) == query
  {
    var path, long := PathOf(url), PathOf(url) + ['?'] + query;
    assert '?' !in path;
    IndexAfter(path, '?', query);
    hide IndexOf;
    assert PathOf(url) + "?" + query == long;
    assert long[..|path|] == path && long[|path| + 1..] == query;
  }

  lemma {:induction false} VaryPartsAt(rt: Runtime, names: seq<string>, r: Request, i: nat)
    requires i < |names|
    ensures VaryParts(rt, names, r)[i] == rt.lower(names[i]) + "=" + VaryValue(rt, r, names[i])
  {
    if i < |names| - 1 { VaryPartsAt(rt, Front(names), r, i); }
  }

  // ------------------------------------------------------- one bar in a field

  /** The last of the variant's parts that shows the field. */
  predicate IsPlace(rt: Runtime, route: Route, f: Field, e: nat) {
    match f
    case TenantId => e == 0
    case Host => e == 1
    case Vary(name) =>
      && 2 <= e < |route.varyBy| + 2 && rt.lower(route.varyBy[e - 2]) == name
      && forall k :: e - 2 < k < |route.varyBy| ==> rt.lower(route.varyBy[k]) != name
  }

  lemma {:induction false} PlaceExists(rt: Runtime, route: Route, f: Field) returns (e: nat)
    requires Keyed(rt, route, f)
    ensures IsPlace(rt, route, f, e)
  {
    match f {
      case TenantId => e := 0;
      case Host => e := 1;
      case Vary(name) =>
        var i := |route.varyBy| - 1;
        while rt.lower(route.varyBy[i]) != name
          invariant 0 <= i < |route.varyBy| && forall k :: i < k < |route.varyBy| ==> rt.lower(route.varyBy[k]) != name
          decreases i
        {
          i := i - 1;
        }
        e := i + 2;
    }
  }

  /** r with more text at the end of one field. */
  function Grown(r: Request, f: Field, more: string): Request {
    match f
    case TenantId => r.(tenantId := Some((if r.tenantId.None? then "" else r.tenantId.value) + more))
    case Host => r.(host := Some(HostOf(r) + more))
    case Vary(name) => r.(headers := r.headers[name := One(HeaderText(r, name) + more)])
  }

  lemma Regrouped(tag: string, v: string, more: string)
    ensures tag + (v + more) == tag + v + more
  {}

  /** Seen in the variant's parts: the last place of the field grows, and nothing after it changes. */
  lemma GrownTail(rt: Runtime, route: Route, r: Request, f: Field, more: string, e: nat)
    requires IsPlace(rt, route, f, e) && Keyed(rt, route, f) && (f.TenantId? ==> TenantPart(r) != "")
    ensures var p, q := Tail(rt, route, r), Tail(rt, route, Grown(r, f, more));
            e < |p| && q[e] == p[e] + more && q[e + 1..] == p[e + 1..]
  {
    hide VaryParts;
    var g := Grown(r, f, more);
    var p, q := Tail(rt, route, r), Tail(rt, route, g);
    match f {
      case TenantId =>
        Regrouped("tenant:", r.tenantId.value, more);
        VaryPartsSame(rt, route, r, g, 0);
      case Host =>
        Regrouped("host:", HostOf(r), more);
        VaryPartsSame(rt, route, r, g, 0);
      case Vary(name) =>
        var i := e - 2;
        VaryPartsAt(rt, route.varyBy, r, i);
        VaryPartsAt(rt, route.varyBy, g, i);
        Regrouped(rt.lower(route.varyBy[i]) + "=", HeaderText(r, name), more);
        VaryPartsSame(rt, route, r, g, i + 1);
    }
    assert forall k :: e < k < |p| ==> q[k] == p[k];
  }

  lemma VaryPartsSame(rt: Runtime, route: Route, r: Request, g: Request, start: nat)
    requires forall k ::
        start <= k < |route.varyBy| ==> VaryValue(rt, g, route.varyBy[k]) == VaryValue(rt, r, route.varyBy[k])
    ensures forall k ::
        start <= k < |route.varyBy| ==> VaryParts(rt, route.varyBy, g)[k] == VaryParts(rt, route.varyBy, r)[k]
  {
    forall k | start <= k < |route.varyBy| ensures VaryParts(rt, route.varyBy, g)[k]
        == VaryParts(rt, route.varyBy, r)[k] {
      VaryPartsAt(rt, route.varyBy, r, k);
      VaryPartsAt(rt, route.varyBy, g, k);
    }
  }

  /** The same text, cut at two places. */
  lemma CutTwice(m: string, q: string, before: seq<string>, part: string, u: seq<string>, after: seq<string>)
    requires |u| >= 1
    ensures Join([m] + [q] + (before + [part + (['|'] + Join(u, '|'))] + after), '|')
         == Join([m] + [Join([q] + before + [part], '|')] + (u + after), '|')
    ensures |Join([q] + before + [part], '|')| > |q|
  {
    JoinOne(part);
    JoinOne(q);
    hide Join;
    JoinAppend([part], u, '|');
    assert part + (['|'] + Join(u, '|')) == part + ['|'] + Join(u, '|') == Join([part] + u, '|');
    JoinNested([m] + [q] + before, [part] + u, after);
    assert [m] + [q] + (before + [Join([part] + u, '|')] + after)
        == [m] + [q] + before + [Join([part] + u, '|')] + after;
    JoinNested([m], [q] + before + [part], u + after);
    assert [m] + [q] + before + ([part] + u) + after == [m] + ([q] + before + [part]) + (u + after);
    JoinAppend([q], before + [part], '|');
    assert [q] + before + [part] == [q] + (before + [part]);
  }

  /** The two requests: r with the field grown by a bar, and another tenant's whose query takes in what precedes it. */
  lemma SameVariant(rt: Runtime, route: Route, r: Request, f: Field, tenant: Option<string>)
      returns (x: Request, more: string)
    requires Keyed(rt, route, f) && (f.TenantId? ==> TenantPart(r) != "")
    ensures Variant(rt, route, x) == Variant(rt, route, Grown(r, f, more))
    ensures x == r.(tenantId := tenant, url := x.url) && PathOf(x.url) == PathOf(r.url)
        && |QueryOf(x.url)| > |QueryOf(r.url)|
  {
    hide Join, PathOf, QueryOf, Variant, TenantPart, HostPart, VaryParts;
    var other := r.(tenantId := tenant);
    var all, p := Tail(rt, route, other), Tail(rt, route, r);
    VaryPartsSame(rt, route, r, other, 0);
    var e := PlaceExists(rt, route, f);
    var u := all[..e + 1];
    more := ['|'] + Join(u, '|');
    var y := Grown(r, f, more);
    GrownTail(rt, route, r, f, more, e);
    var q := Tail(rt, route, y);
    var query := Join([QueryOf(r.url)] + q[..e] + [p[e]], '|');
    x := other.(url := PathOf(r.url) + "?" + query);
    QueryReplaced(r.url, query);
    SameTail(rt, route, x, other);
    VariantIsHeadAndTail(rt, route, x);
    VariantIsHeadAndTail(rt, route, y);
    CutTwice(r.verb, QueryOf(r.url), q[..e], p[e], u, p[e + 1..]);
    OnlyTenantDiffers(rt, route, r, other, e);
    assert q == q[..e] + [p[e] + more] + p[e + 1..];
  }

  lemma OnlyTenantDiffers(rt: Runtime, route: Route, r: Request, other: Request, e: nat)
    requires other == r.(tenantId := other.tenantId) && e < |Tail(rt, route, r)|
    ensures Tail(rt, route, other) == Tail(rt, route, other)[..e + 1] + Tail(rt, route, r)[e + 1..]
  {
    hide VaryParts;
    VaryPartsSame(rt, route, r, other, 0);
    var all, p := Tail(rt, route, other), Tail(rt, route, r);
    assert forall k :: 1 <= k < |p| ==> all[k] == p[k];
  }

  /**
   For every bar-free request, every other tenant and every keyed field there
   are two requests that share a cache key and are not the same page: `x`, of
   that other tenant, bar-free but for its query; and `y`, the given request
   with a bar in that one field.
   */
  lemma BarsMixTenants(rt: Runtime, route: Route, r: Request, f: Field, tenant: Option<string>)
      returns (x: Request, y: Request)
    requires BarFree(rt, route, r) && Keyed(rt, route, f) && (f.TenantId? ==> TenantPart(r) != "")
    requires '|' !in TenantPart(r.(tenantId := tenant))
    ensures BuildCacheKey(rt, route, x) == BuildCacheKey(rt, route, y) && Variant(rt, route, x) == Variant(rt, route, y)
    ensures PathOf(x.url) == PathOf(y.url) && !SamePage(rt, route, x, y)
    ensures Within(rt, route, {}, x) && Within(rt, route, {f}, y)
    ensures TenantPart(x) == TenantPart(r.(tenantId := tenant)) && (!f.TenantId? ==> TenantPart(y) == TenantPart(r))
  {
    hide Variant, PathOf, QueryOf, CacheKeyPrefix, SameUrl;
    var more;
    x, more := SameVariant(rt, route, r, f, tenant);
    y := Grown(r, f, more);
    assert y.url == r.url;
    SameUrlExactlyWhen(x.url, y.url);
    BarsOfGrown(rt, route, r, f, more);
    WithinNoneIsBarFree(rt, route, x);
  }

  lemma SameTail(rt: Runtime, route: Route, x: Request, other: Request)
    requires x == other.(url := x.url)
    ensures Tail(rt, route, x) == Tail(rt, route, other)
  {
    VaryPartsSame(rt, route, other, x, 0);
    assert VaryParts(rt, route.varyBy, x) == VaryParts(rt, route.varyBy, other);
  }

  lemma BarsOfGrown(rt: Runtime, route: Route, r: Request, f: Field, more: string)
    requires BarFree(rt, route, r)
    ensures Within(rt, route, {f}, Grown(r, f, more))
  {
    WithinNoneIsBarFree(rt, route, r);
    forall g | Keyed(rt, route, g) && g != f ensures !HasBar(route, Grown(r, f, more), g) {
      assert !HasBar(route, r, g);
    }
  }

  // ------------------------------------------------------------ the condition

  /** Equal keys mean the same page of the route, among requests whose keyed fields hold bars in these fields only. */
  ghost predicate Separates(rt: Runtime, route: Route, fields: set<Field>) {
    forall r, r' :: Within(rt, route, fields, r) && Within(rt, route, fields, r')
        && BuildCacheKey(rt, route, r) == BuildCacheKey(rt, route, r')
      ==> SamePage(rt, route, r, r') || Collide(rt, PathOf(r.url), PathOf(r'.url))
          || Collide(rt, Variant(rt, route, r), Variant(rt, route, r'))
  }

  /**
   A class of requests, given by the fields that may hold a bar, is told apart
   by its cache keys (as far as SHA-256 tells texts apart) if and only if none
   of these fields is part of the route's key.
   */
  lemma KeysSeparateExactlyWhen(rt: Runtime, route: Route, fields: set<Field>)
    ensures Separates(rt, route, fields) <==> forall f :: Keyed(rt, route, f) ==> f !in fields
  {
    hide BuildCacheKey, Variant, PathOf, SamePage, BarFree, HasBar;
    if f :| Keyed(rt, route, f) && f in fields {
      var r := Request("GET", "/", map[], Some("a"), None);
      PlainRequest(rt, route, r);
      var x, y := BarsMixTenants(rt, route, r, f, Some("b"));
      assert Within(rt, route, fields, x) && Within(rt, route, fields, y);
      assert !Collide(rt, PathOf(x.url), PathOf(y.url)) && !Collide(rt, Variant(rt, route, x), Variant(rt, route, y));
    } else {
      forall r, r' | Within(rt, route, fields, r) && Within(rt, route, fields, r')
          && BuildCacheKey(rt, route, r) == BuildCacheKey(rt, route, r')
        ensures SamePage(rt, route, r, r') || Collide(rt, PathOf(r.url), PathOf(r'.url))
            || Collide(rt, Variant(rt, route, r), Variant(rt, route, r'))
      {
        assert Within(rt, route, {}, r) && Within(rt, route, {}, r');
        WithinNoneIsBarFree(rt, route, r);
        WithinNoneIsBarFree(rt, route, r');
        KeysTellPagesApart(rt, route, r, route, r');
      }
    }
  }

  lemma PlainRequest(rt: Runtime, route: Route, r: Request)
    requires r == Request("GET", "/", map[], Some("a"), None)
    ensures BarFree(rt, route, r) && TenantPart(r) == "tenant:a" && '|' !in TenantPart(r.(tenantId := Some("b")))
  {}
}
