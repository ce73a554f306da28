/** What may be cached, and for how long. */
module CachePolicy {
  import opened Common
  import opened Text
  import opened CacheKeys

  datatype Directives = Directives(noStore: bool, noCache: bool, isPrivate: bool, maxAge: Option<real>)

  datatype CacheDecision = CacheDecision(cacheable: bool, ttlSec: real)

  const MAX_AGE := "max-age="

  function JoinList(texts: seq<string>): string {
    if |texts| == 0 then "" else if |texts| == 1 then texts[0] else texts[0] + ", " + JoinList(texts[1..])
  }

  function RawCacheControl(value: Option<HeaderValue>): string {
    match value
    case None => ""
    case Some(One(text)) => text
    case Some(Many(texts)) => JoinList(texts)
  }

  /** Trimmed and lower-cased, empty ones dropped. */
  function Normalised(rt: Runtime, parts: seq<string>): seq<string> {
    if |parts| == 0 then []
    else
      var d := rt.lower(rt.trim(parts[0]));
      (if d == "" then [] else [d]) + Normalised(rt, parts[1..])
  }

  function DirectiveList(rt: Runtime, value: Option<HeaderValue>): seq<string> {
    Normalised(rt, Split(RawCacheControl(value), ','))
  }

  lemma {:induction false} NormalisedAppend(rt: Runtime, a: seq<string>, b: seq<string>)
    ensures Normalised(rt, a + b) == Normalised(rt, a) + Normalised(rt, b)
  {
    if |a| == 0 {
      assert a + b == b;
    } else {
      assert (a + b)[1..] == a[1..] + b;
      NormalisedAppend(rt, a[1..], b);
    }
  }

  /**
   What the list holds: a text without a comma is one directive, or none if
   nothing is left of it; a comma separates; a repeated header reads like its
   values with comma and space in between.
   */
  lemma DirectivesAreCommaSeparated(rt: Runtime, a: string, b: string, more: seq<string>)
    ensures ',' !in a ==>
              DirectiveList(rt, Some(One(a))) == if rt.lower(rt.trim(a)) == "" then [] else [rt.lower(rt.trim(a))]
    ensures DirectiveList(rt, Some(One(a + "," + b)))
        == DirectiveList(rt, Some(One(a))) + DirectiveList(rt, Some(One(b)))
    ensures DirectiveList(rt, Some(Many([a]))) == DirectiveList(rt, Some(One(a)))
    ensures DirectiveList(rt, Some(Many([a, b] + more)))
         == DirectiveList(rt, Some(One(a))) + DirectiveList(rt, Some(One(" " + JoinList([b] + more))))
    ensures DirectiveList(rt, None) == DirectiveList(rt, Some(One("")))
  {
    CommaSeparates(rt, a, b);
    if ',' !in a { OneDirective(rt, a); }
    var rest := " " + JoinList([b] + more);
    CommaSeparates(rt, a, rest);
    RepeatedText(a, b, more);
    SameText(rt, Some(Many([a])), Some(One(a)));
    SameText(rt, Some(Many([a, b] + more)), Some(One(a + "," + rest)));
    SameText(rt, None, Some(One("")));
    hide DirectiveList, RawCacheControl;
  }

  lemma RepeatedText(a: string, b: string, more: seq<string>)
    ensures RawCacheControl(Some(Many([a]))) == a && RawCacheControl(None) == ""
    ensures RawCacheControl(Some(Many([a, b] + more))) == a + "," + (" " + JoinList([b] + more))
  {
    assert ([a, b] + more)[1..] == [b] + more;
    assert a + "," + (" " + JoinList([b] + more)) == a + ", " + JoinList([b] + more);
  }

  lemma SameText(rt: Runtime, v: Option<HeaderValue>, w: Option<HeaderValue>)
    ensures RawCacheControl(v) == RawCacheControl(w) ==> DirectiveList(rt, v) == DirectiveList(rt, w)
  {}

  lemma CommaSeparates(rt: Runtime, a: string, b: string)
    ensures DirectiveList(rt, Some(One(a + "," + b)))
        == DirectiveList(rt, Some(One(a))) + DirectiveList(rt, Some(One(b)))
  {
    hide Normalised, Split;
    SplitAppend(a, ',', b);
    assert a + [','] + b == a + "," + b;
    NormalisedAppend(rt, Split(a, ','), Split(b, ','));
  }

  lemma OneDirective(rt: Runtime, a: string)
    requires ',' !in a
    ensures DirectiveList(rt, Some(One(a))) == if rt.lower(rt.trim(a)) == "" then [] else [rt.lower(rt.trim(a))]
  {
    SplitUnfolds(a, ',', "");
    hide Split;
    assert [a][1..] == [];
    assert Normalised(rt, [a]) == (if rt.lower(rt.trim(a)) == "" then [] else [rt.lower(rt.trim(a))])
        + Normalised(rt, []);
  }

  /** A max-age directive is the text "max-age=" and a text that denotes a finite number, which is its value. */
  lemma MaxAgeIsWritten(rt: Runtime, d: string, text: string)
    ensures IsMaxAge(rt, "max-age=" + text) <==> rt.number(text).Some?
    ensures rt.number(text).Some? ==> MaxAgeOf(rt, "max-age=" + text) == rt.number(text).value
    ensures IsMaxAge(rt, d) ==> "max-age=" <= d
  {
    assert ("max-age=" + text)[|MAX_AGE|..] == text;
  }

  predicate IsMaxAge(rt: Runtime, d: string) {
    MAX_AGE <= d && rt.number(d[|MAX_AGE|..]).Some?
  }

  function MaxAgeOf(rt: Runtime, d: string): real
    requires IsMaxAge(rt, d)
  {
    rt.number(d[|MAX_AGE|..]).value
  }

  /** The last max-age with a finite number counts. */
  ghost predicate LastMaxAge(rt: Runtime, ds: seq<string>, m: Option<real>) {
    match m
    case None => forall i :: 0 <= i < |ds| ==> !IsMaxAge(rt, ds[i])
    case Some(v) => exists i :: 0 <= i < |ds| && IsMaxAge(rt, ds[i]) && MaxAgeOf(rt, ds[i]) == v
                                && forall j :: i < j < |ds| ==> !IsMaxAge(rt, ds[j])
  }

  function MaxAge(rt: Runtime, ds: seq<string>): (m: Option<real>)
    ensures LastMaxAge(rt, ds, m)
  {
    if |ds| == 0 then None
    else if IsMaxAge(rt, Last(ds)) then
      assert ds[|ds| - 1] == Last(ds);
      Some(MaxAgeOf(rt, Last(ds)))
    else
      var m := MaxAge(rt, Front(ds));
      assert forall i :: 0 <= i < |ds| - 1 ==> Front(ds)[i] == ds[i];
      m
  }

  method ParseCacheControl(rt: Runtime, value: Option<HeaderValue>) returns (d: Directives)
    ensures var ds := DirectiveList(rt, value);
            && (d.noStore <==> "no-store" in ds) && (d.noCache <==> "no-cache" in ds)
               && (d.isPrivate <==> "private" in ds)
            && LastMaxAge(rt, ds, d.maxAge)
            && d.maxAge == MaxAge(rt, ds)
  {
    var directives := DirectiveList(rt, value);
    var maxAge: Option<real> := None;
    for i := 0 to |directives|
      invariant maxAge == MaxAge(rt, directives[..i])
    {
      var directive := directives[i];
      assert Front(directives[..i + 1]) == directives[..i];
      if !(MAX_AGE <= directive) { continue; }
      var parsed := rt.number(directive[|MAX_AGE|..]);
      if parsed.Some? { maxAge := parsed; }
    }
    assert directives[..|directives|] == directives;
    d := Directives("no-store" in directives, "no-cache" in directives, "private" in directives, maxAge);
  }

  function CacheControlOf(headers: map<string, HeaderValue>): Option<HeaderValue> {
    if "cache-control" in headers then Some(headers["cache-control"]) else None
  }

  predicate Forbidden(rt: Runtime, headers: map<string, HeaderValue>) {
    var ds := DirectiveList(rt, CacheControlOf(headers));
    "no-store" in ds || "no-cache" in ds || "private" in ds
  }

  function UpstreamMaxAge(rt: Runtime, headers: map<string, HeaderValue>): Option<real> {
    MaxAge(rt, DirectiveList(rt, CacheControlOf(headers)))
  }

  function DecideCacheability(rt: Runtime, statusCode: int, headers: map<string, HeaderValue>,
      defaultTtlSec: int): CacheDecision {
    if statusCode != 200 then CacheDecision(false, 0.0)
    else if Forbidden(rt, headers) then CacheDecision(false, 0.0)
    else
      var maxAge := UpstreamMaxAge(rt, headers);
      var ttlSec := if maxAge.Some? && maxAge.value < defaultTtlSec as real then maxAge.value
          else defaultTtlSec as real;
      if ttlSec <= 0.0 then CacheDecision(false, 0.0) else CacheDecision(true, ttlSec)
  }

  /** The directives of the response's own Cache-Control header; none reads like an empty one. */
  function DirectivesOf(rt: Runtime, headers: map<string, HeaderValue>): seq<string> {
    DirectiveList(rt, Some(if "cache-control" in headers then headers["cache-control"] else One("")))
  }

  /** A positive lifetime that neither the route nor the last valid max-age of the directives forbids. */
  predicate Permitted(rt: Runtime, ds: seq<string>, defaultTtlSec: int, t: real) {
    0.0 < t <= defaultTtlSec as real && (MaxAge(rt, ds).Some? ==> t <= MaxAge(rt, ds).value)
  }

  /**
   Exactly the 200 responses that no directive forbids and that may live at all
   are cached, and they get the longest permitted lifetime.
   */
  lemma CachedExactlyWhenAllowed(rt: Runtime, statusCode: int, headers: map<string, HeaderValue>, defaultTtlSec: int)
    ensures var d, ds := DecideCacheability(rt, statusCode, headers, defaultTtlSec), DirectivesOf(rt, headers);
            && (d.cacheable <==>
                && statusCode == 200 && "no-store" !in ds && "no-cache" !in ds && "private" !in ds
                && exists t :: Permitted(rt, ds, defaultTtlSec, t))
            && (d.cacheable ==> Permitted(rt, ds, defaultTtlSec, d.ttlSec)
                                && forall t :: Permitted(rt, ds, defaultTtlSec, t) ==> t <= d.ttlSec)
            && (Forbidden(rt, headers) <==> "no-store" in ds || "no-cache" in ds || "private" in ds)
  {
    SameText(rt, None, Some(One("")));
    hide DirectiveList, MaxAge;
    var d := DecideCacheability(rt, statusCode, headers, defaultTtlSec);
    assert d.cacheable ==> Permitted(rt, DirectivesOf(rt, headers), defaultTtlSec, d.ttlSec);
  }

  method Decide(rt: Runtime, statusCode: int, headers: map<string, HeaderValue>, defaultTtlSec: int)
      returns (r: CacheDecision)
    ensures r == DecideCacheability(rt, statusCode, headers, defaultTtlSec)
  {
    if statusCode != 200 { return CacheDecision(false, 0.0); }
    var directives := ParseCacheControl(rt, CacheControlOf(headers));
    if directives.noStore || directives.noCache || directives.isPrivate { return CacheDecision(false, 0.0); }
    var ttlSec := defaultTtlSec as real;
    if directives.maxAge.Some? && directives.maxAge.value < ttlSec { ttlSec := directives.maxAge.value; }
    if ttlSec <= 0.0 { return CacheDecision(false, 0.0); }
    r := CacheDecision(true, ttlSec);
  }

  function Stripped(rt: Runtime, headers: map<string, HeaderValue>): map<string, HeaderValue> {
    map k | k in headers && rt.lower(k) != "set-cookie" :: headers[k]
  }

  predicate HasSetCookie(rt: Runtime, headers: map<string, HeaderValue>) {
    exists k :: k in headers && rt.lower(k) == "set-cookie"
  }

  method StripUncacheableHeaders(rt: Runtime, headers: map<string, HeaderValue>)
      returns (result: map<string, HeaderValue>)
    ensures result == Stripped(rt, headers)
    ensures !HasSetCookie(rt, result)
    ensures forall k :: k in headers && rt.lower(k) != "set-cookie" ==> k in result && result[k] == headers[k]
    ensures result.Keys <= headers.Keys
  {
    result := map[];
    var rest := headers.Keys;
    while rest != {}
      invariant rest <= headers.Keys
      invariant result == map k | k in headers && k !in rest && rt.lower(k) != "set-cookie" :: headers[k]
      decreases rest
    {
      var key :| key in rest;
      rest := rest - {key};
      if rt.lower(key) == "set-cookie" { continue; }
      result := result[key := headers[key]];
    }
  }
}
