/**
 The access token in a WebSocket URL's query (section 2.3 of RFC 6750):
 finding it, taking it out before the URL goes upstream, masking it in logs.
 Percent-decoding is any total function.
 */
module QueryToken {
  import opened Common
  import opened Text

  type Decoder = string -> string

  const REDACTED := "[redacted]"

  function PathPart(url: string): string {
    var q := IndexOf(url, '?');
    if q == -1 then url else url[..q]
  }

  function QueryPart(url: string): Option<string> {
    var q := IndexOf(url, '?');
    if q == -1 then None else Some(url[q + 1..])
  }

  function RawKey(pair: string): string {
    var eq := IndexOf(pair, '=');
    if eq == -1 then pair else pair[..eq]
  }

  function KeyOf(decode: Decoder, pair: string): string {
    decode(RawKey(pair))
  }

  function ValueOf(decode: Decoder, pair: string): string {
    var eq := IndexOf(pair, '=');
    if eq == -1 then "" else decode(pair[eq + 1..])
  }

  /** The query's pieces; a URL without a query has none. */
  function Pieces(url: string): seq<string> {
    if QueryPart(url).None? then [] else Split(QueryPart(url).value, '&')
  }

  /** A pair is cut at its first equals sign; without one it is all key. */
  lemma PairsAreCutAtTheSign(decode: Decoder, k: string, v: string)
    requires '=' !in k
    ensures RawKey(k + "=" + v) == k && KeyOf(decode, k + "=" + v) == decode(k)
        && ValueOf(decode, k + "=" + v) == decode(v)
    ensures RawKey(k) == k && KeyOf(decode, k) == decode(k) && ValueOf(decode, k) == ""
  {
    IndexAfter(k, '=', v);
    var pair := k + ['='] + v;
    assert k + "=" + v == pair && pair[..|k|] == k && pair[|k| + 1..] == v;
  }

  predicate Carries(decode: Decoder, name: string, pair: string) {
    KeyOf(decode, pair) == name && ValueOf(decode, pair) != ""
  }

  /** The value of the first named pair that has one. */
  ghost predicate FirstToken(decode: Decoder, name: string, pairs: seq<string>, token: Option<string>) {
    match token
    case None => forall i :: 0 <= i < |pairs| ==> !Carries(decode, name, pairs[i])
    case Some(v) => exists i :: 0 <= i < |pairs| && Carries(decode, name, pairs[i]) && ValueOf(decode, pairs[i]) == v
                                && forall j :: 0 <= j < i ==> !Carries(decode, name, pairs[j])
  }

  method ExtractQueryToken(decode: Decoder, url: string, name: string) returns (token: Option<string>)
    ensures FirstToken(decode, name, Pieces(url), token)
  {
    hide KeyOf, ValueOf, QueryPart, Split;
    var query := QueryPart(url);
    if query.None? { return None; }
    var pairs := Split(query.value, '&');
    assert pairs == Pieces(url);
    hide Pieces;
    for i := 0 to |pairs|
      invariant forall j :: 0 <= j < i ==> !Carries(decode, name, pairs[j])
    {
      var pair := pairs[i];
      if KeyOf(decode, pair) != name { continue; }
      var value := ValueOf(decode, pair);
      if value != "" {
        assert Carries(decode, name, pairs[i]);
        return Some(value);
      }
    }
    token := None;
  }

  /** The non-empty pieces with another name, in order. */
  function Others(decode: Decoder, name: string, pairs: seq<string>): (kept: seq<string>)
    ensures forall i :: 0 <= i < |kept| ==> kept[i] in pairs && kept[i] != "" && KeyOf(decode, kept[i]) != name
  {
    if |pairs| == 0 then []
    else
      (if pairs[0] != "" && KeyOf(decode, pairs[0]) != name then [pairs[0]] else []) + Others(decode, name, pairs[1..])
  }

  function StripQueryParam(decode: Decoder, url: string, name: string): string {
    if QueryPart(url).None? then url
    else
      var kept := Others(decode, name, Pieces(url));
      if |kept| == 0 then PathPart(url) else PathPart(url) + ['?'] + Join(kept, '&')
  }

  function Mask(decode: Decoder, name: string, pair: string): string {
    if KeyOf(decode, pair) == name then RawKey(pair) + ['='] + REDACTED else pair
  }

  /** A named pair, with or without a value, is shown as its key and the mark; any other as it is. */
  lemma MaskIsWritten(decode: Decoder, name: string, k: string, v: string)
    requires '=' !in k
    ensures decode(k) == name ==>
              Mask(decode, name, k + "=" + v) == k + "=[redacted]" && Mask(decode, name, k) == k + "=[redacted]"
    ensures decode(k) != name ==> Mask(decode, name, k + "=" + v) == k + "=" + v && Mask(decode, name, k) == k
  {
    PairsAreCutAtTheSign(decode, k, v);
    assert k + ['='] + REDACTED == k + "=[redacted]";
  }

  function MaskAll(decode: Decoder, name: string, pairs: seq<string>): (masked: seq<string>)
    ensures |masked| == |pairs|
    ensures forall i :: 0 <= i < |pairs| ==> masked[i] == Mask(decode, name, pairs[i])
  {
    hide Mask; if |pairs| == 0 then [] else [Mask(decode, name, pairs[0])] + MaskAll(decode, name, pairs[1..])
  }

  function RedactUrl(decode: Decoder, url: string, name: string): string {
    if QueryPart(url).None? then url
    else PathPart(url) + ['?'] + Join(MaskAll(decode, name, Pieces(url)), '&')
  }

  // ------------------------------------------------------------- putting together

  lemma Reassembled(path: string, query: string)
    requires '?' !in path
    ensures PathPart(path + ['?'] + query) == path && QueryPart(path + ['?'] + query) == Some(query)
  {
    var url := path + ['?'] + query;
    IndexAfter(path, '?', query);
    assert url[..|path|] == path && url[|path| + 1..] == query;
  }

  lemma PathHasNoQuery(url: string)
    ensures '?' !in PathPart(url) && PathPart(PathPart(url)) == PathPart(url) && QueryPart(PathPart(url)).None?
    ensures QueryPart(url).None? ==> PathPart(url) == url
  {}

  lemma {:induction false} OthersAppend(decode: Decoder, name: string, a: seq<string>, b: seq<string>)
    ensures Others(decode, name, a + b) == Others(decode, name, a) + Others(decode, name, b)
  {
    hide KeyOf;
    if |a| == 0 {
      assert a + b == b;
    } else {
      assert (a + b)[1..] == a[1..] + b;
      OthersAppend(decode, name, a[1..], b);
    }
  }

  /** Every piece stands or falls by itself, in its place. */
  lemma OthersIsAFilter(decode: Decoder, name: string, a: seq<string>, pair: string, b: seq<string>)
    ensures Others(decode, name, a + [pair] + b)
         == Others(decode, name, a)
            + (if pair != "" && KeyOf(decode, pair) != name then [pair] else [])
            + Others(decode, name, b)
  {
    hide KeyOf;
    OthersAppend(decode, name, a + [pair], b);
    OthersAppend(decode, name, a, [pair]);
    assert Others(decode, name, [pair]) == if pair != "" && KeyOf(decode, pair) != name then [pair] else [];
  }

  /** A URL has a query if it has a question mark: what follows the first one. */
  lemma UrlsAreCutAtTheMark(path: string, query: string)
    requires '?' !in path
    ensures PathPart(path) == path && QueryPart(path) == None && Pieces(path) == []
    ensures PathPart(path + "?" + query) == path && QueryPart(path + "?" + query) == Some(query)
    ensures Pieces(path + "?" + query) == Split(query, '&')
  {
    Reassembled(path, query);
    assert path + "?" + query == path + ['?'] + query;
  }

  lemma OthersAreFree(decode: Decoder, name: string, pairs: seq<string>)
    requires Free(pairs, '&')
    ensures Free(Others(decode, name, pairs), '&')
  {}

  lemma OthersKept(decode: Decoder, name: string, kept: seq<string>)
    requires forall i :: 0 <= i < |kept| ==> kept[i] != "" && KeyOf(decode, kept[i]) != name
    ensures Others(decode, name, kept) == kept
  {}

  /** Stripping changes nothing but the pieces: the path stays, and so do all other non-empty pieces, in order. */
  lemma StripKeepsTheRest(decode: Decoder, url: string, name: string)
    ensures var s := StripQueryParam(decode, url, name);
            PathPart(s) == PathPart(url) && Pieces(s) == Others(decode, name, Pieces(url))
  {
    hide PathPart, QueryPart, Join, Split, KeyOf;
    PathHasNoQuery(url);
    var kept := Others(decode, name, Pieces(url));
    if QueryPart(url).Some? && |kept| > 0 {
      assert Free(Pieces(url), '&');
      OthersAreFree(decode, name, Pieces(url));
      Reassembled(PathPart(url), Join(kept, '&'));
      SplitOfJoin(kept, '&');
    }
  }

  /** After stripping there is no token to find, and stripping again changes nothing. */
  lemma StripRemovesTheToken(decode: Decoder, url: string, name: string, token: Option<string>)
    requires FirstToken(decode, name, Pieces(StripQueryParam(decode, url, name)), token)
    ensures token.None?
    ensures StripQueryParam(decode, StripQueryParam(decode, url, name), name) == StripQueryParam(decode, url, name)
  {
    hide PathPart, QueryPart, Join, Split, KeyOf;
    var s, kept := StripQueryParam(decode, url, name), Others(decode, name, Pieces(url));
    StripKeepsTheRest(decode, url, name);
    OthersKept(decode, name, kept);
    PathHasNoQuery(url);
    PathHasNoQuery(s);
    if QueryPart(url).Some? && |kept| > 0 {
      Reassembled(PathPart(url), Join(kept, '&'));
    }
    NoneCarried(decode, name, kept);
  }

  lemma NoneCarried(decode: Decoder, name: string, kept: seq<string>)
    requires forall i :: 0 <= i < |kept| ==> KeyOf(decode, kept[i]) != name
    ensures forall i :: 0 <= i < |kept| ==> !Carries(decode, name, kept[i])
  {}

  /** Two URLs strip to the same URL exactly when they have the same path and the same other pieces. */
  lemma StripForgetsExactlyTheToken(decode: Decoder, u: string, v: string, name: string)
    ensures StripQueryParam(decode, u, name) == StripQueryParam(decode, v, name) <==>
            PathPart(u) == PathPart(v) && Others(decode, name, Pieces(u)) == Others(decode, name, Pieces(v))
  {
    hide PathPart, QueryPart, Join, Split, KeyOf;
    StripKeepsTheRest(decode, u, name);
    StripKeepsTheRest(decode, v, name);
    PathHasNoQuery(u);
    PathHasNoQuery(v);
  }

  lemma MaskKeepsTheKey(decode: Decoder, name: string, pair: string)
    ensures RawKey(Mask(decode, name, pair)) == RawKey(pair)
    ensures '&' !in pair ==> '&' !in Mask(decode, name, pair)
  {
    var eq := IndexOf(pair, '=');
    assert '=' !in RawKey(pair);
    IndexAfter(RawKey(pair), '=', REDACTED);
    assert (RawKey(pair) + ['='] + REDACTED)[..|RawKey(pair)|] == RawKey(pair);
    assert '&' !in REDACTED;
  }

  /** Redacting keeps the path and every piece in place; a named piece keeps its key as written, and only that. */
  lemma RedactKeepsTheRest(decode: Decoder, url: string, name: string)
    ensures var s := RedactUrl(decode, url, name);
            PathPart(s) == PathPart(url) && Pieces(s) == MaskAll(decode, name, Pieces(url))
                && QueryPart(s).Some? == QueryPart(url).Some?
  {
    hide PathPart, QueryPart, Join, Split, Mask;
    PathHasNoQuery(url);
    if QueryPart(url).Some? {
      var masked := MaskAll(decode, name, Pieces(url));
      assert |Pieces(url)| >= 1 && Free(Pieces(url), '&');
      forall i | 0 <= i < |masked| ensures '&' !in masked[i] { MaskKeepsTheKey(decode, name, Pieces(url)[i]); }
      Reassembled(PathPart(url), Join(masked, '&'));
      SplitOfJoin(masked, '&');
    }
  }

  lemma MaskTwice(decode: Decoder, name: string, pairs: seq<string>)
    ensures MaskAll(decode, name, MaskAll(decode, name, pairs)) == MaskAll(decode, name, pairs)
  {
    forall i | 0 <= i < |pairs| ensures Mask(decode, name, Mask(decode, name, pairs[i]))
        == Mask(decode, name, pairs[i]) {
      MaskKeepsTheKey(decode, name, pairs[i]);
    }
  }

  lemma RedactIsIdempotent(decode: Decoder, url: string, name: string)
    ensures RedactUrl(decode, RedactUrl(decode, url, name), name) == RedactUrl(decode, url, name)
  {
    hide PathPart, QueryPart, Pieces, MaskAll;
    RedactKeepsTheRest(decode, url, name);
    PathHasNoQuery(url);
    if QueryPart(url).Some? { MaskTwice(decode, name, Pieces(url)); }
  }

  /** The same piece, or two pieces of the same written key that names the token. */
  predicate SameButToken(decode: Decoder, name: string, p: string, q: string) {
    p == q || (RawKey(p) == RawKey(q) && KeyOf(decode, p) == name)
  }

  predicate DifferOnlyInTokens(decode: Decoder, name: string, u: string, v: string) {
    && PathPart(u) == PathPart(v) && QueryPart(u).Some? == QueryPart(v).Some? && |Pieces(u)| == |Pieces(v)|
    && forall i :: 0 <= i < |Pieces(u)| ==> SameButToken(decode, name, Pieces(u)[i], Pieces(v)[i])
  }

  lemma MaskForgetsTheValue(decode: Decoder, name: string, p: string, q: string)
    ensures Mask(decode, name, p) == Mask(decode, name, q) <==> SameButToken(decode, name, p, q)
  {
    MaskKeepsTheKey(decode, name, p);
    MaskKeepsTheKey(decode, name, q);
  }

  /**
   Masking hides the token's value and nothing else: two URLs look the same in
   the logs exactly when they differ only in token values; such URLs also go
   upstream as the same URL.
   */
  lemma RedactForgetsExactlyTheToken(decode: Decoder, u: string, v: string, name: string)
    ensures RedactUrl(decode, u, name) == RedactUrl(decode, v, name) <==> DifferOnlyInTokens(decode, name, u, v)
    ensures DifferOnlyInTokens(decode, name, u, v)
        ==> StripQueryParam(decode, u, name) == StripQueryParam(decode, v, name)
  {
    hide PathPart, QueryPart, Pieces, Mask, SameButToken, RawKey;
    RedactKeepsTheRest(decode, u, name);
    RedactKeepsTheRest(decode, v, name);
    PathHasNoQuery(u);
    PathHasNoQuery(v);
    var p, q := Pieces(u), Pieces(v);
    forall i | 0 <= i < |p| && i < |q| ensures Mask(decode, name, p[i]) == Mask(decode, name, q[i])
        <==> SameButToken(decode, name, p[i], q[i]) {
      MaskForgetsTheValue(decode, name, p[i], q[i]);
    }
    if DifferOnlyInTokens(decode, name, u, v) {
      assert MaskAll(decode, name, p) == MaskAll(decode, name, q);
      OthersAgree(decode, name, p, q);
      StripForgetsExactlyTheToken(decode, u, v, name);
    } else if RedactUrl(decode, u, name) == RedactUrl(decode, v, name) {
      assert MaskAll(decode, name, p) == MaskAll(decode, name, q);
      forall i | 0 <= i < |p| ensures SameButToken(decode, name, p[i], q[i]) {
        assert MaskAll(decode, name, p)[i] == MaskAll(decode, name, q)[i];
      }
    }
  }

  lemma {:induction false} OthersAgree(decode: Decoder, name: string, p: seq<string>, q: seq<string>)
    requires |p| == |q| && forall i :: 0 <= i < |p| ==> SameButToken(decode, name, p[i], q[i])
    ensures Others(decode, name, p) == Others(decode, name, q)
  {
    if |p| > 0 {
      assert SameButToken(decode, name, p[0], q[0]);
      OthersAgree(decode, name, p[1..], q[1..]);
    }
  }
}
