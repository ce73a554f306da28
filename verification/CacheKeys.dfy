/** The response cache's structured keys: cache:<route id, URL-encoded>:<path digest>:<variant digest>. */
module CacheKeys {
  import opened Common
  import opened Text

  // ------------------------------------------------------- encodeURIComponent

  predicate Unreserved(c: char) {
    'A' <= c <= 'Z' || 'a' <= c <= 'z' || '0' <= c <= '9' || c in "-_.!~*'()"
  }

  type Byte = b: int | 0 <= b < 256

  /** UTF-8 (RFC 3629, section 3). */
  function Utf8(c: char): (bytes: seq<Byte>)
    ensures 1 <= |bytes| <= 4
  {
    var n := c as int;
    if n < 0x80 then [n]
    else if n < 0x800 then [0xC0 + n / 0x40, 0x80 + n % 0x40]
    else if n < 0x1_0000 then [0xE0 + n / 0x1000, 0x80 + n / 0x40 % 0x40, 0x80 + n % 0x40]
    else [0xF0 + n / 0x4_0000, 0x80 + n / 0x1000 % 0x40, 0x80 + n / 0x40 % 0x40, 0x80 + n % 0x40]
  }

  function HexDigit(n: int): char
    requires 0 <= n < 16
  {
    "0123456789ABCDEF"[n]
  }

  function PercentBytes(bytes: seq<Byte>): string {
    if |bytes| == 0 then ""
    else ['%', HexDigit(bytes[0] / 16), HexDigit(bytes[0] % 16)] + PercentBytes(bytes[1..])
  }

  function EncodeChar(c: char): string {
    if Unreserved(c) then [c] else PercentBytes(Utf8(c))
  }

  function EncodeUriComponent(s: string): string {
    if |s| == 0 then "" else EncodeChar(s[0]) + EncodeUriComponent(s[1..])
  }

  lemma HexDigitIsInjective(m: int, n: int)
    requires 0 <= m < 16 && 0 <= n < 16 && HexDigit(m) == HexDigit(n)
    ensures m == n
  {}

  function LengthFromLead(b: Byte): nat {
    if b < 0x80 then 1 else if b < 0xE0 then 2 else if b < 0xF0 then 3 else 4
  }

  function CodePoint(bytes: seq<Byte>): int
    requires 1 <= |bytes| <= 4
  {
    if |bytes| == 1 then bytes[0]
    else if |bytes| == 2 then (bytes[0] as int - 0xC0) * 0x40 + (bytes[1] as int - 0x80)
    else if |bytes| == 3 then
      (bytes[0] as int - 0xE0) * 0x1000 + (bytes[1] as int - 0x80) * 0x40 + (bytes[2] as int - 0x80)
    else
      (bytes[0] as int - 0xF0) * 0x4_0000 + (bytes[1] as int - 0x80) * 0x1000
      + (bytes[2] as int - 0x80) * 0x40 + (bytes[3] as int - 0x80)
  }

  /** The leading byte tells how many bytes follow, and the bytes tell the character. */
  lemma Utf8IsDecodable(c: char)
    ensures LengthFromLead(Utf8(c)[0]) == |Utf8(c)|
    ensures CodePoint(Utf8(c)) == c as int
  {
    var n := c as int;
    assert n / 0x40 / 0x40 == n / 0x1000 && n / 0x1000 / 0x40 == n / 0x4_0000;
  }

  lemma {:induction false} PercentBytesLength(bytes: seq<Byte>)
    ensures |PercentBytes(bytes)| == 3 * |bytes|
    ensures ':' !in PercentBytes(bytes)
  {
    if |bytes| > 0 { PercentBytesLength(bytes[1..]); }
  }

  lemma {:induction false} PercentBytesInjective(a: seq<Byte>, b: seq<Byte>)
    requires |a| == |b| && PercentBytes(a) == PercentBytes(b)
    ensures a == b
  {
    if |a| > 0 {
      var x, y := PercentBytes(a), PercentBytes(b);
      assert x[1] == HexDigit(a[0] / 16) && x[2] == HexDigit(a[0] % 16);
      assert y[1] == HexDigit(b[0] / 16) && y[2] == HexDigit(b[0] % 16);
      HexDigitIsInjective(a[0] / 16, b[0] / 16);
      HexDigitIsInjective(a[0] % 16, b[0] % 16);
      assert x[3..] == PercentBytes(a[1..]) && y[3..] == PercentBytes(b[1..]);
      PercentBytesInjective(a[1..], b[1..]);
    }
  }

  /** No character's encoding begins another's. */
  lemma EncodeCharIsPrefixFree(c: char, x: string, d: char, y: string)
    requires EncodeChar(c) + x == EncodeChar(d) + y
    ensures c == d && x == y
  {
    hide Utf8;
    var p, q := EncodeChar(c), EncodeChar(d);
    PercentBytesLength(Utf8(c));
    PercentBytesLength(Utf8(d));
    assert p[0] == (p + x)[0] && q[0] == (q + y)[0];
    assert Unreserved(c) == Unreserved(d);
    if !Unreserved(c) {
      var a, b := Utf8(c), Utf8(d);
      assert p[1] == (p + x)[1] == q[1] && p[2] == (p + x)[2] == q[2];
      HexDigitIsInjective(a[0] / 16, b[0] / 16);
      HexDigitIsInjective(a[0] % 16, b[0] % 16);
      Utf8IsDecodable(c);
      Utf8IsDecodable(d);
      assert p == (p + x)[..|p|] && q == (q + y)[..|q|];
      PercentBytesInjective(a, b);
    }
    assert x == (p + x)[|p|..] && y == (q + y)[|q|..];
  }

  /** Different route ids never share an encoding, and no encoding holds the separator. */
  lemma {:induction false} EncodingIsInjective(s: string, t: string)
    requires EncodeUriComponent(s) == EncodeUriComponent(t)
    ensures s == t
    decreases |s|
  {
    EncodingNonEmpty(s);
    EncodingNonEmpty(t);
    if |s| > 0 && |t| > 0 {
      EncodeCharIsPrefixFree(s[0], EncodeUriComponent(s[1..]), t[0], EncodeUriComponent(t[1..]));
      EncodingIsInjective(s[1..], t[1..]);
      assert s == [s[0]] + s[1..] && t == [t[0]] + t[1..];
    }
  }

  lemma EncodingNonEmpty(s: string)
    ensures EncodeUriComponent(s) == "" <==> s == ""
  {
    if |s| > 0 { PercentBytesLength(Utf8(s[0])); }
  }

  lemma {:induction false} EncodingHasNoColon(s: string)
    ensures ':' !in EncodeUriComponent(s)
  {
    if |s| > 0 {
      PercentBytesLength(Utf8(s[0]));
      EncodingHasNoColon(s[1..]);
    }
  }

  // ------------------------------------------------------------------- keys

  /** A hex SHA-256 digest. */
  type Digest = s: string | |s| == 64 && forall i :: 0 <= i < |s| ==> '0' <= s[i] <= '9' || 'a' <= s[i] <= 'f'
    witness seq(64, _ => '0')

  /** What the runtime supplies: the digest, lower-casing, trimming, and the finite number a text denotes, if any. */
  datatype Runtime = Runtime(
    sha256: string -> Digest, lower: string -> string, trim: string -> string, number: string -> Option<real>)

  predicate Collide(rt: Runtime, a: string, b: string) {
    a != b && rt.sha256(a) == rt.sha256(b)
  }

  datatype HeaderValue = One(text: string) | Many(texts: seq<string>)

  datatype Route = Route(id: string, hostBound: bool, varyBy: seq<string>, ttlSec: int)

  datatype Request = Request(verb: string, url: string, headers: map<string, HeaderValue>, tenantId: Option<string>,
      host: Option<string>)

  function PathOf(url: string): string {
    var q := IndexOf(url, '?');
    if q == -1 then url else url[..q]
  }

  function QueryOf(url: string): string {
    var q := IndexOf(url, '?');
    if q == -1 then "" else url[q + 1..]
  }

  function JoinComma(texts: seq<string>): string {
    Join(texts, ',')
  }

  /** A URL is its path, or its path, a question mark and its query; the path holds none. */
  lemma UrlIsPathAndQuery(url: string)
    ensures '?' !in PathOf(url)
    ensures if '?' in url then url == PathOf(url) + "?" + QueryOf(url) else url == PathOf(url) && QueryOf(url) == ""
  {}

  /** The same URL, up to a question mark with nothing after it. */
  predicate SameUrl(u: string, v: string) {
    u == v || ('?' !in v && u == v + "?") || ('?' !in u && v == u + "?")
  }

  lemma SameUrlExactlyWhen(u: string, v: string)
    ensures PathOf(u) == PathOf(v) && QueryOf(u) == QueryOf(v) <==> SameUrl(u, v)
  {
    UrlIsPathAndQuery(u);
    UrlIsPathAndQuery(v);
    if '?' !in v && u == v + "?" { BareQuestionMark(v); }
    if '?' !in u && v == u + "?" { BareQuestionMark(u); }
    hide PathOf, QueryOf;
    assert PathOf(u) + "?" + "" == PathOf(u) + "?" && PathOf(v) + "?" + "" == PathOf(v) + "?";
  }

  lemma CutAtTheMark(path: string, query: string)
    requires '?' !in path
    ensures PathOf(path + "?" + query) == path && QueryOf(path + "?" + query) == query
  {
    IndexAfter(path, '?', query);
    assert path + ['?'] + query == path + "?" + query;
    assert (path + "?" + query)[..|path|] == path && (path + "?" + query)[|path| + 1..] == query;
  }

  lemma BareQuestionMark(path: string)
    requires '?' !in path
    ensures PathOf(path + "?") == path && QueryOf(path + "?") == ""
  {
    CutAtTheMark(path, "");
    assert path + "?" + "" == path + "?";
  }

  /** The URLs of a path: the path itself, and the path with any query. */
  predicate UnderPath(path: string, url: string) {
    '?' !in path && (url == path || path + "?" <= url)
  }

  lemma UnderPathExactlyWhen(path: string, url: string)
    ensures PathOf(url) == path <==> UnderPath(path, url)
  {
    hide PathOf, QueryOf;
    UrlIsPathAndQuery(url);
    if UnderPath(path, url) && url != path {
      var query := url[|path| + 1..];
      assert url == path + "?" + query;
      CutAtTheMark(path, query);
    }
    if PathOf(url) == path && '?' in url {
      assert path + "?" + QueryOf(url) == url;
      assert path + "?" <= url;
    }
  }

  /** The value of one header: absent is empty, repeated values are joined. */
  function HeaderText(r: Request, name: string): string {
    if name !in r.headers then "" else
    match r.headers[name]
    case One(text) => text
    case Many(texts) => JoinComma(texts)
  }

  /** Absent, single, and repeated: the values in order, with commas in between. */
  lemma HeaderTextCases(r: Request, name: string, texts: seq<string>, last: string)
    ensures name !in r.headers ==> HeaderText(r, name) == ""
    ensures HeaderText(r.(headers := r.headers[name := One(last)]), name) == last
    ensures HeaderText(r.(headers := r.headers[name := Many([last])]), name) == last
    ensures |texts| >= 1 ==>
              HeaderText(r.(headers := r.headers[name := Many(texts + [last])]), name)
              == HeaderText(r.(headers := r.headers[name := Many(texts)]), name) + "," + last
  {
    if |texts| >= 1 {
      JoinAppend(texts, [last], ',');
      assert Join([last], ',') == last;
    }
  }

  function VaryValue(rt: Runtime, r: Request, name: string): string {
    HeaderText(r, rt.lower(name))
  }

  function VaryParts(rt: Runtime, names: seq<string>, r: Request): (parts: seq<string>)
    ensures |parts| == |names|
  {
    if |names| == 0 then []
    else VaryParts(rt, Front(names), r) + [rt.lower(Last(names)) + "=" + VaryValue(rt, r, Last(names))]
  }

  /** An empty tenant id counts as none. */
  function TenantPart(r: Request): string {
    if r.tenantId.None? || r.tenantId.value == "" then "" else "tenant:" + r.tenantId.value
  }

  function HostOf(r: Request): string {
    if r.host.None? then "" else r.host.value
  }

  function HostPart(route: Route, r: Request): string {
    if route.hostBound then "host:" + HostOf(r) else ""
  }

  function Variant(rt: Runtime, route: Route, r: Request): string {
    Join([r.verb, QueryOf(r.url), TenantPart(r), HostPart(route, r)] + VaryParts(rt, route.varyBy, r), '|')
  }

  function CacheKeyPrefix(rt: Runtime, routeId: string, path: Option<string>): string {
    var routePart := "cache:" + EncodeUriComponent(routeId) + ":";
    if path.None? then routePart else routePart + rt.sha256(path.value) + ":"
  }

  function BuildCacheKey(rt: Runtime, route: Route, r: Request): string {
    CacheKeyPrefix(rt, route.id, Some(PathOf(r.url))) + rt.sha256(Variant(rt, route, r))
  }

  /** Two colon-free names, each closed by a colon, that begin the same text are the same name. */
  lemma ClosedNamesAgree(a: string, x: string, b: string, y: string)
    requires ':' !in a && ':' !in b && a + [':'] + x <= b + [':'] + y
    ensures a == b && x <= y
  {
    var s, t := a + [':'] + x, b + [':'] + y;
    IndexAfter(a, ':', x);
    IndexAfter(b, ':', y);
    assert forall k :: 0 <= k < |a| ==> t[k] == s[k] == a[k];
    assert forall k :: 0 <= k < |b| ==> t[k] == b[k];
    assert s[|a|] == t[|a|] == ':' && t[|b|] == ':';
    assert a == s[..|a|] == t[..|a|] == b;
    assert x == s[|a| + 1..] && y == t[|a| + 1..];
  }

  lemma DigestHasNoColon(d: Digest)
    ensures ':' !in d
  {}

  /** One closed name more: it begins the text exactly if the names agree and the rest begins the rest. */
  lemma ClosedName(a: string, x: string, b: string, y: string)
    requires ':' !in a && ':' !in b
    ensures a + [':'] + x <= b + [':'] + y <==> a == b && x <= y
  {
    if a + [':'] + x <= b + [':'] + y {
      ClosedNamesAgree(a, x, b, y);
    } else {
      PrefixUnder(a + [':'], x, y);
    }
  }

  function PathPart(rt: Runtime, path: Option<string>): string {
    if path.None? then "" else rt.sha256(path.value) + [':']
  }

  lemma KeyShape(rt: Runtime, routeId: string, path: Option<string>, route: Route, r: Request)
    ensures CacheKeyPrefix(rt, routeId, path)
        == "cache" + [':'] + (EncodeUriComponent(routeId) + [':'] + PathPart(rt, path))
    ensures BuildCacheKey(rt, route, r)
         == "cache" + [':']
            + (EncodeUriComponent(route.id) + [':']
               + (rt.sha256(PathOf(r.url)) + [':'] + rt.sha256(Variant(rt, route, r))))
  {
    hide EncodeUriComponent, PathOf, Variant;
    var e, e', d, v := EncodeUriComponent(routeId), EncodeUriComponent(route.id), rt.sha256(PathOf(r.url)),
        rt.sha256(Variant(rt, route, r));
    assert "cache:" == "cache" + [':'] && ":" == [':'];
    assert CacheKeyPrefix(rt, routeId, path) == "cache:" + e + ":" + PathPart(rt, path);
    assert BuildCacheKey(rt, route, r) == "cache:" + e' + ":" + d + ":" + v;
    Regroup("cache:" + e, PathPart(rt, path));
    Regroup("cache:" + e', d + ":" + v);
  }

  lemma Regroup(a: string, b: string)
    ensures a + ":" + b == a + ([':'] + b)
  {}

  /**
   Purge by prefix is exact: the prefix for a route matches a stored key if and
   only if the key was built for that route, and the prefix for a path if and
   only if it was built for that route and a URL that is the path or goes on with
   a question mark (up to a digest collision of the two paths), whatever
   characters the ids hold.
   */
  lemma PurgePrefixIsExact(rt: Runtime, routeId: string, path: Option<string>, route: Route, r: Request)
    ensures CacheKeyPrefix(rt, routeId, path) <= BuildCacheKey(rt, route, r) <==>
            routeId == route.id && (path.Some?
                ==> UnderPath(path.value, r.url) || Collide(rt, path.value, PathOf(r.url)))
  {
    if path.Some? { UnderPathExactlyWhen(path.value, r.url); }
    hide EncodeUriComponent, PathOf, Variant, CacheKeyPrefix, BuildCacheKey, UnderPath;
    var e, e', v := EncodeUriComponent(routeId), EncodeUriComponent(route.id), rt.sha256(Variant(rt, route, r));
    var d := rt.sha256(PathOf(r.url));
    EncodingHasNoColon(routeId);
    EncodingHasNoColon(route.id);
    DigestHasNoColon(d);
    KeyShape(rt, routeId, path, route, r);
    ClosedName("cache", e + [':'] + PathPart(rt, path), "cache", e' + [':'] + (d + [':'] + v));
    ClosedName(e, PathPart(rt, path), e', d + [':'] + v);
    if e == e' { EncodingIsInjective(routeId, route.id); }
    if path.Some? {
      DigestHasNoColon(rt.sha256(path.value));
      assert PathPart(rt, path) == rt.sha256(path.value) + [':'] + "";
      ClosedName(rt.sha256(path.value), "", d, v);
    }
  }

  lemma PrefixUnder(a: string, x: string, y: string)
    ensures a + x <= a + y <==> x <= y
  {
    assert (a + x)[|a|..] == x && (a + y)[|a|..] == y;
    assert x <= y ==> a + x == (a + y)[..|a| + |x|];
    assert a + x <= a + y ==> x == (a + y)[..|a| + |x|][|a|..];
  }

  // ------------------------------------------------- what the variant tells apart

  /** The text after the last bar. */
  function AfterBar(s: string): string {
    if |s| == 0 || Last(s) == '|' then "" else AfterBar(Front(s)) + [Last(s)]
  }

  lemma {:induction false} AfterBarAppend(s: string, v: string)
    requires '|' !in v
    ensures AfterBar(s + v) == AfterBar(s) + v
  {
    if |v| == 0 {
      assert s + v == s;
    } else {
      assert Front(s + v) == s + Front(v) && Last(s + v) == Last(v);
      assert Last(v) in v;
      AfterBarAppend(s, Front(v));
      assert AfterBar(s) + Front(v) + [Last(v)] == AfterBar(s) + v;
    }
  }

  lemma {:induction false} AfterBarForgets(x: string, y: string)
    ensures AfterBar(x + ['|'] + y) == AfterBar(['|'] + y)
  {
    if |y| == 0 {
      assert x + ['|'] + y == x + ['|'] && ['|'] + y == ['|'];
    } else {
      assert Front(x + ['|'] + y) == x + ['|'] + Front(y) && Front(['|'] + y) == ['|'] + Front(y);
      AfterBarForgets(x, Front(y));
    }
  }

  lemma LastPartShows(x: string, tag: string, v: string)
    requires '|' !in v
    ensures AfterBar(x + ['|'] + (tag + v)) == AfterBar(['|'] + tag) + v
  {
    hide AfterBar;
    assert x + ['|'] + (tag + v) == (x + ['|'] + tag) + v;
    AfterBarAppend(x + ['|'] + tag, v);
    AfterBarForgets(x, tag);
  }

  lemma SameEnding(x: string, x': string, w: string)
    requires x + w == x' + w
    ensures x == x'
  {
    assert |x| == |x'|;
    assert x == (x + w)[..|x|] && x' == (x' + w)[..|x'|];
  }

  lemma SameBeginning(k: string, v: string, v': string)
    requires k + v == k + v'
    ensures v == v'
  {
    assert v == (k + v)[|k|..] && v' == (k + v')[|k|..];
  }

  /** A last part with a known tag and a bar-free value can be read off the joined text. */
  lemma LastPartIsReadable(x: string, v: string, x': string, v': string, tag: string)
    requires '|' !in v && '|' !in v' && x + ['|'] + (tag + v) == x' + ['|'] + (tag + v')
    ensures v == v' && x == x'
  {
    hide AfterBar;
    LastPartShows(x, tag, v);
    LastPartShows(x', tag, v');
    SameBeginning(AfterBar(['|'] + tag), v, v');
    assert x + ['|'] == x' + ['|'] by { SameEnding(x + ['|'], x' + ['|'], tag + v); }
    SameEnding(x, x', ['|']);
  }

  predicate BarFree(rt: Runtime, route: Route, r: Request) {
    && '|' !in r.verb && '|' !in TenantPart(r) && '|' !in HostPart(route, r)
    && forall i :: 0 <= i < |route.varyBy| ==> '|' !in VaryValue(rt, r, route.varyBy[i])
  }

  lemma {:induction false} VaryPartsReadable(rt: Runtime, names: seq<string>, x: seq<string>, r: Request,
      x': seq<string>, r': Request)
    requires |x| >= 1 && |x'| >= 1
    requires forall i :: 0 <= i < |names| ==> '|' !in VaryValue(rt, r, names[i]) && '|' !in VaryValue(rt, r', names[i])
    requires Join(x + VaryParts(rt, names, r), '|') == Join(x' + VaryParts(rt, names, r'), '|')
    ensures Join(x, '|') == Join(x', '|')
    ensures forall i :: 0 <= i < |names| ==> VaryValue(rt, r, names[i]) == VaryValue(rt, r', names[i])
  {
    hide VaryValue, Join;
    if |names| == 0 {
      assert x + VaryParts(rt, names, r) == x && x' + VaryParts(rt, names, r') == x';
    } else {
      var front, name := Front(names), Last(names);
      assert names[|names| - 1] == name;
      var v, v', tag := VaryValue(rt, r, name), VaryValue(rt, r', name), rt.lower(name) + "=";
      var p, p' := x + VaryParts(rt, front, r), x' + VaryParts(rt, front, r');
      assert x + VaryParts(rt, names, r) == p + [tag + v];
      assert x' + VaryParts(rt, names, r') == p' + [tag + v'];
      JoinLast(p, tag + v);
      JoinLast(p', tag + v');
      LastPartIsReadable(Join(p, '|'), v, Join(p', '|'), v', tag);
      VaryPartsReadable(rt, front, x, r, x', r');
      assert forall i :: 0 <= i < |names| ==> (i < |front| && names[i] == front[i]) || names[i] == name;
    }
  }

  lemma JoinLast(parts: seq<string>, last: string)
    requires |parts| >= 1
    ensures Join(parts + [last], '|') == Join(parts, '|') + ['|'] + last
  {
    JoinAppend(parts, [last], '|');
  }

  /**
   The variant tells requests to one route apart: when tenant ids, hosts and
   vary values hold no bar, equal variants mean equal method, query, tenant,
   host part and vary values, even if queries (or the names of the vary
   headers) hold bars.
   */
  lemma VariantIsInjective(rt: Runtime, route: Route, r: Request, r': Request)
    requires BarFree(rt, route, r) && BarFree(rt, route, r') && Variant(rt, route, r) == Variant(rt, route, r')
    ensures r.verb == r'.verb && QueryOf(r.url) == QueryOf(r'.url)
    ensures TenantPart(r) == TenantPart(r') && HostPart(route, r) == HostPart(route, r')
    ensures forall i ::
        0 <= i < |route.varyBy| ==> VaryValue(rt, r, route.varyBy[i]) == VaryValue(rt, r', route.varyBy[i])
  {
    hide VaryValue, TenantPart, HostPart, QueryOf, Join;
    var m, q, t, h := r.verb, QueryOf(r.url), TenantPart(r), HostPart(route, r);
    var m', q', t', h' := r'.verb, QueryOf(r'.url), TenantPart(r'), HostPart(route, r');
    VaryPartsReadable(rt, route.varyBy, [m, q, t, h], r, [m', q', t', h'], r');
    HeadReadable(m, q, t, h, m', q', t', h');
  }

  lemma HeadReadable(m: string, q: string, t: string, h: string, m': string, q': string, t': string, h': string)
    requires Free([m, t, h], '|') && Free([m', t', h'], '|') && Join([m, q, t, h], '|') == Join([m', q', t', h'], '|')
    ensures m == m' && q == q' && t == t' && h == h'
  {
    assert [m, t, h][0] == m && [m, t, h][1] == t && [m, t, h][2] == h;
    assert [m', t', h'][0] == m' && [m', t', h'][1] == t' && [m', t', h'][2] == h';
    JoinFour(m, q, t, h);
    JoinFour(m', q', t', h');
    var x, x' := m + ['|'] + q, m' + ['|'] + q';
    LastPartIsReadable(x + ['|'] + t, h, x' + ['|'] + t', h', "");
    LastPartIsReadable(x, t, x', t', "");
    IndexAfter(m, '|', q);
    IndexAfter(m', '|', q');
    assert m == x[..|m|] && q == x[|m| + 1..] && m' == x'[..|m'|] && q' == x'[|m'| + 1..];
  }

  lemma JoinFour(m: string, q: string, t: string, h: string)
    ensures Join([m, q, t, h], '|') == m + ['|'] + q + ['|'] + ("" + t) + ['|'] + ("" + h)
    ensures t == "" + t && h == "" + h
  {
    assert [m, q, t, h] == [m, q, t] + [h] && [m, q, t] == [m, q] + [t] && [m, q] == [m] + [q];
    JoinLast([m, q, t], h);
    JoinLast([m, q], t);
    JoinLast([m], q);
  }

  /** The tenant a request counts for: an empty id counts as none. */
  function TenantOf(r: Request): string {
    if r.tenantId.None? then "" else r.tenantId.value
  }

  predicate SamePage(rt: Runtime, route: Route, r: Request, r': Request) {
    && SameUrl(r.url, r'.url) && r.verb == r'.verb && TenantOf(r) == TenantOf(r')
    && (route.hostBound ==> HostOf(r) == HostOf(r'))
    && forall i :: 0 <= i < |route.varyBy|
                   ==> HeaderText(r, rt.lower(route.varyBy[i])) == HeaderText(r', rt.lower(route.varyBy[i]))
  }

  lemma PartsTell(route: Route, r: Request, r': Request)
    ensures TenantPart(r) == TenantPart(r') <==> TenantOf(r) == TenantOf(r')
    ensures HostPart(route, r) == HostPart(route, r') <==> (route.hostBound ==> HostOf(r) == HostOf(r'))
  {
    assert TenantOf(r) == ("tenant:" + TenantOf(r))[7..] && TenantOf(r') == ("tenant:" + TenantOf(r'))[7..];
    assert HostOf(r) == ("host:" + HostOf(r))[5..] && HostOf(r') == ("host:" + HostOf(r'))[5..];
    assert |"tenant:" + TenantOf(r)| >= 7 && |"tenant:" + TenantOf(r')| >= 7;
  }

  lemma {:induction false} SameVaryParts(rt: Runtime, names: seq<string>, r: Request, r': Request)
    requires forall i :: 0 <= i < |names| ==> VaryValue(rt, r, names[i]) == VaryValue(rt, r', names[i])
    ensures VaryParts(rt, names, r) == VaryParts(rt, names, r')
  {
    if |names| > 0 {
      SameVaryParts(rt, Front(names), r, r');
      assert names[|names| - 1] == Last(names);
    }
  }

  /** The same page has one key. */
  lemma SamePageSameKey(rt: Runtime, route: Route, r: Request, r': Request)
    requires SamePage(rt, route, r, r')
    ensures BuildCacheKey(rt, route, r) == BuildCacheKey(rt, route, r')
  {
    hide PathOf, QueryOf, TenantPart, HostPart, HeaderText, CacheKeyPrefix, SameUrl;
    SameUrlExactlyWhen(r.url, r'.url);
    PartsTell(route, r, r');
    SameVaryParts(rt, route.varyBy, r, r');
  }

  /** Equal keys mean the same route and the same page of it, unless SHA-256 collides on the paths or variants. */
  lemma KeysTellPagesApart(rt: Runtime, route: Route, r: Request, route': Route, r': Request)
    requires BuildCacheKey(rt, route, r) == BuildCacheKey(rt, route', r')
    requires route.id == route'.id ==> route == route'
    requires BarFree(rt, route, r) && BarFree(rt, route', r')
    ensures route == route'
    ensures SamePage(rt, route, r, r') || Collide(rt, PathOf(r.url), PathOf(r'.url))
            || Collide(rt, Variant(rt, route, r), Variant(rt, route, r'))
  {
    hide BarFree, Variant, PathOf, QueryOf, EncodeUriComponent, SameUrl, UnderPath, TenantPart, HostPart, HeaderText;
    UnderPathExactlyWhen(PathOf(r.url), r'.url);
    var prefix := CacheKeyPrefix(rt, route.id, Some(PathOf(r.url)));
    assert prefix <= BuildCacheKey(rt, route, r);
    PurgePrefixIsExact(rt, route.id, Some(PathOf(r.url)), route', r');
    assert |CacheKeyPrefix(rt, route'.id, Some(PathOf(r'.url)))| == |prefix|;
    var key := BuildCacheKey(rt, route, r);
    assert key[|prefix|..] == rt.sha256(Variant(rt, route, r)) == rt.sha256(Variant(rt, route', r'));
    if Variant(rt, route, r) == Variant(rt, route, r') {
      VariantIsInjective(rt, route, r, r');
      SameUrlExactlyWhen(r.url, r'.url);
      PartsTell(route, r, r');
    }
  }
}
