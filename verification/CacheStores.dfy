/** Redis glob patterns: escaping a literal prefix so that a SCAN pattern matches exactly the keys it begins. */
module Glob {
  import opened Common

  /**
   What a bracket expression at the start of a pattern does with one character:
   how many pattern characters it uses if it matches.
   */
  type Brackets = (string, char) -> Option<nat>

  function Match(brackets: Brackets, p: string, s: string): bool
    decreases |p|, |s|
  {
    if |p| == 0 then s == ""
    else if p[0] == '*' then Match(brackets, p[1..], s) || (s != "" && Match(brackets, p, s[1..]))
    else if s == "" then false
    else if p[0] == '?' then Match(brackets, p[1..], s[1..])
    else if p[0] == '[' then
      var used := brackets(p, s[0]);
      used.Some? && 1 <= used.value <= |p| && Match(brackets, p[used.value..], s[1..])
    else if p[0] == '\\' && |p| >= 2 then p[1] == s[0] && Match(brackets, p[2..], s[1..])
    else p[0] == s[0] && Match(brackets, p[1..], s[1..])
  }

  function EscapeGlob(literal: string): string {
    if literal == "" then ""
    else (if literal[0] in "\\*?[]" then ['\\', literal[0]] else [literal[0]]) + EscapeGlob(literal[1..])
  }

  lemma {:induction false} StarMatchesAll(brackets: Brackets, s: string)
    ensures Match(brackets, "*", s)
  {
    if s != "" { StarMatchesAll(brackets, s[1..]); }
  }

  /** The escaped prefix and a star match exactly the strings that begin with the prefix, whatever it holds. */
  lemma {:induction false} EscapedPrefixIsLiteral(brackets: Brackets, prefix: string, s: string)
    ensures Match(brackets, EscapeGlob(prefix) + "*", s) <==> prefix <= s
  {
    if prefix == "" {
      assert EscapeGlob(prefix) + "*" == "*";
      StarMatchesAll(brackets, s);
    } else {
      var c, rest := prefix[0], EscapeGlob(prefix[1..]) + "*";
      var p := EscapeGlob(prefix) + "*";
      if c in "\\*?[]" {
        assert p == ['\\', c] + rest;
        assert p[2..] == rest;
      } else {
        assert p == [c] + rest;
        assert p[1..] == rest;
      }
      if s != "" {
        EscapedPrefixIsLiteral(brackets, prefix[1..], s[1..]);
        assert prefix == [c] + prefix[1..] && s == [s[0]] + s[1..];
        assert c == s[0] && prefix[1..] <= s[1..] <==> prefix <= s by { ConsPrefix(prefix, s); }
      }
    }
  }

  lemma ConsPrefix(a: string, b: string)
    requires a != "" && b != ""
    ensures a <= b <==> a[0] == b[0] && a[1..] <= b[1..]
  {
    assert a == [a[0]] + a[1..] && b == [b[0]] + b[1..];
    if a[0] == b[0] && a[1..] <= b[1..] {
      assert forall i :: 0 <= i < |a| ==> a[i] == b[i] by {
        forall i | 0 <= i < |a| ensures a[i] == b[i] { if i > 0 { assert a[1..][i - 1] == b[1..][i - 1]; } }
      }
    }
  }
}

/** The two stores behind the response cache. */
module CacheStores {
  import opened Common
  import opened Glob

  datatype Entry<T> = Entry(response: T, expiresAt: real)

  predicate Fresh<T>(e: Entry<T>, now: real) {
    now < e.expiresAt
  }

  function LiveKeys<T>(entries: map<string, Entry<T>>, now: real): set<string> {
    set k | k in entries && Fresh(entries[k], now)
  }

  function Under(keys: set<string>, prefix: string): set<string> {
    set k | k in keys && prefix <= k
  }

  /** What a caller can see of a store: its unexpired entries. */
  function Visible<T>(entries: map<string, Entry<T>>, now: real): map<string, T> {
    map k | k in entries && Fresh(entries[k], now) :: entries[k].response
  }

  function Without<T>(m: map<string, T>, prefix: string): map<string, T> {
    map k | k in m && !(prefix <= k) :: m[k]
  }

  /** The purge's intermediate states: the keys visited so far that begin with the prefix are gone. */
  ghost function Remaining<T>(was: map<string, Entry<T>>, prefix: string, done: set<string>): map<string, Entry<T>> {
    map k | k in was && !(k in done && prefix <= k) :: was[k]
  }

  ghost function Counted<T>(was: map<string, Entry<T>>, prefix: string, now: real, done: set<string>): nat {
    |Under(LiveKeys(was, now), prefix) * done|
  }

  lemma RemainingAtFirst<T>(was: map<string, Entry<T>>, prefix: string, now: real)
    ensures Remaining(was, prefix, {}) == was
    ensures Counted(was, prefix, now, {}) == 0
  {}

  lemma RemainingAtLast<T>(was: map<string, Entry<T>>, prefix: string, now: real)
    ensures Remaining(was, prefix, was.Keys) == Without(was, prefix)
    ensures Counted(was, prefix, now, was.Keys) == |Under(LiveKeys(was, now), prefix)|
  {
    assert Under(LiveKeys(was, now), prefix) * was.Keys == Under(LiveKeys(was, now), prefix);
  }

  lemma RemainingStep<T>(was: map<string, Entry<T>>, prefix: string, done: set<string>, key: string, now: real)
    requires key in was && key !in done
    ensures var next := Remaining(was, prefix, done + {key});
            && key in Remaining(was, prefix, done) && Remaining(was, prefix, done)[key] == was[key]
            && next == if prefix <= key then Remaining(was, prefix, done) - {key} else Remaining(was, prefix, done)
    ensures Counted(was, prefix, now, done + {key})
         == Counted(was, prefix, now, done) + if prefix <= key && now < was[key].expiresAt then 1 else 0
  {
    var visible := Under(LiveKeys(was, now), prefix);
    if prefix <= key && now < was[key].expiresAt {
      assert visible * (done + {key}) == visible * done + {key};
    } else {
      assert visible * (done + {key}) == visible * done;
    }
  }

  class MemoryCacheStore<T> {
    var entries: map<string, Entry<T>>

    constructor ()
      ensures entries == map[]
    {
      entries := map[];
    }

    /** An expired entry is dropped on the way; nothing visible changes, now or later. */
    method Get(key: string, now: real) returns (found: Option<T>)
      modifies this
      ensures found == if key in old(Visible(entries, now)) then Some(old(Visible(entries, now))[key]) else None
      ensures forall later :: later >= now ==> Visible(entries, later) == old(Visible(entries, later))
      ensures entries == if key in old(entries) && found.None? then old(entries) - {key} else old(entries)
    {
      if key !in entries { return None; }
      var entry := entries[key];
      if now >= entry.expiresAt {
        entries := entries - {key};
        return None;
      }
      found := Some(entry.response);
    }

    method Set(key: string, response: T, ttlSec: real, now: real)
      modifies this
      ensures entries == old(entries)[key := Entry(response, now + ttlSec * 1000.0)]
    {
      entries := entries[key := Entry(response, now + ttlSec * 1000.0)];
    }

    /** Visits the keys in any order, deleting as it goes; only entries a caller could still see are counted. */
    method DeleteByPrefix(prefix: string, now: real) returns (removed: nat)
      modifies this
      ensures removed == |Under(LiveKeys(old(entries), now), prefix)|
      ensures entries == Without(old(entries), prefix)
    {
      hide Under, LiveKeys, Remaining, Counted;
      removed := 0;
      var rest := entries.Keys;
      ghost var was, done: set<string> := entries, {};
      RemainingAtFirst(was, prefix, now);
      while rest != {}
        invariant rest !! done && rest + done == was.Keys
        invariant entries == Remaining(was, prefix, done)
        invariant removed == Counted(was, prefix, now, done)
        decreases rest
      {
        var key :| key in rest;
        rest := rest - {key};
        RemainingStep(was, prefix, done, key, now);
        if prefix <= key {
          var entry := entries[key];
          entries := entries - {key};
          if now < entry.expiresAt { removed := removed + 1; }
        }
        done := done + {key};
      }
      RemainingAtLast(was, prefix, now);
    }

    method Close()
      modifies this
      ensures entries == map[]
    {
      entries := map[];
    }
  }

  function Listed(pages: seq<seq<string>>): set<string> {
    set i, j | 0 <= i < |pages| && 0 <= j < |pages[i]| :: pages[i][j]
  }

  /**
   SCAN's promise on an otherwise quiet server: only matching keys, each at
   least once, in pages of any size, repeats allowed.
   */
  predicate ScanOf(brackets: Brackets, keys: set<string>, pattern: string, pages: seq<seq<string>>) {
    && (forall k :: k in Listed(pages) ==> Match(brackets, pattern, k))
    && (forall k :: k in keys && Match(brackets, pattern, k) ==> k in Listed(pages))
  }

  class RedisCacheStore<T> {
    /** Expired keys are gone by themselves on this store. */
    var live: map<string, T>

    constructor (live: map<string, T>)
      ensures this.live == live
    {
      this.live := live;
    }

    /** DEL: how many of the named keys it really removed. */
    method Del(keys: seq<string>) returns (count: nat)
      modifies this
      ensures live == Dropped(old(live), Named(keys))
      ensures count == Hits(old(live), Named(keys))
    {
      count := Hits(live, Named(keys));
      live := Dropped(live, Named(keys));
    }

    method DeleteByPrefix(brackets: Brackets, prefix: string, pages: seq<seq<string>>) returns (removed: nat)
      requires ScanOf(brackets, live.Keys, EscapeGlob(prefix) + "*", pages)
      modifies this
      ensures removed == |Under(old(live).Keys, prefix)|
      ensures live == Without(old(live), prefix)
    {
      hide Listed, Named, Dropped, Hits, Under, Without, Match, EscapeGlob, ScanOf;
      removed := 0;
      ghost var was := live;
      var i := 0;
      ListedAtFirst(was, pages);
      while i < |pages|
        invariant 0 <= i <= |pages|
        invariant live == Dropped(was, Listed(pages[..i]))
        invariant removed == Hits(was, Listed(pages[..i]))
      {
        var keys := pages[i];
        i := i + 1;
        DeletedPage(was, pages, i - 1);
        if |keys| == 0 { continue; }
        var n := Del(keys);
        removed := removed + n;
      }
      ScanFindsThePrefix(brackets, was, prefix, pages, i);
    }
  }

  function Named(keys: seq<string>): set<string> {
    set j | 0 <= j < |keys| :: keys[j]
  }

  function Hits<T>(m: map<string, T>, keys: set<string>): nat {
    |m.Keys * keys|
  }

  function Dropped<T>(m: map<string, T>, keys: set<string>): map<string, T> {
    m - keys
  }

  lemma ListedAtFirst<T>(was: map<string, T>, pages: seq<seq<string>>)
    ensures Dropped(was, Listed(pages[..0])) == was && Hits(was, Listed(pages[..0])) == 0
  {
    assert Listed(pages[..0]) == {};
  }

  lemma DroppedTwice<T>(m: map<string, T>, a: set<string>, b: set<string>)
    ensures Dropped(Dropped(m, a), b) == Dropped(m, a + b)
    ensures Dropped(m, a).Keys == m.Keys - a
  {}

  lemma CountedTwice(keys: set<string>, a: set<string>, b: set<string>)
    ensures |keys * a| + |(keys - a) * b| == |keys * (a + b)|
  {
    assert keys * (a + b) == keys * a + (keys - a) * b;
  }

  lemma DeletedPage<T>(was: map<string, T>, pages: seq<seq<string>>, i: nat)
    requires i < |pages|
    ensures var left, keys := Dropped(was, Listed(pages[..i])), Named(pages[i]);
            && Dropped(left, keys) == Dropped(was, Listed(pages[..i + 1]))
            && Hits(was, Listed(pages[..i])) + Hits(left, keys) == Hits(was, Listed(pages[..i + 1]))
            && (pages[i] == [] ==> Listed(pages[..i + 1]) == Listed(pages[..i]))
  {
    hide Listed, Named, Dropped;
    ListedGrows(pages, i);
    NamedNone(pages[i]);
    DroppedTwice(was, Listed(pages[..i]), Named(pages[i]));
    CountedTwice(was.Keys, Listed(pages[..i]), Named(pages[i]));
    if pages[i] == [] { assert Listed(pages[..i]) + {} == Listed(pages[..i]); }
  }

  lemma NamedNone(keys: seq<string>)
    ensures keys == [] ==> Named(keys) == {}
  {}

  lemma ScanFindsThePrefix<T>(brackets: Brackets, was: map<string, T>, prefix: string, pages: seq<seq<string>>, i: nat)
    requires ScanOf(brackets, was.Keys, EscapeGlob(prefix) + "*", pages) && i == |pages|
    ensures Hits(was, Listed(pages[..i])) == |Under(was.Keys, prefix)|
    ensures Dropped(was, Listed(pages[..i])) == Without(was, prefix)
  {
    hide Listed, Match, EscapeGlob;
    assert pages[..i] == pages;
    forall k | k in was ensures k in Listed(pages) <==> prefix <= k {
      EscapedPrefixIsLiteral(brackets, prefix, k);
    }
    assert was.Keys * Listed(pages) == Under(was.Keys, prefix);
  }

  lemma ListedGrows(pages: seq<seq<string>>, i: nat)
    requires i < |pages|
    ensures Listed(pages[..i + 1]) == Listed(pages[..i]) + Named(pages[i])
  {
    var a, b, c := Listed(pages[..i + 1]), Listed(pages[..i]), Named(pages[i]);
    forall k | k in a ensures k in b + c {
      var x, y :| 0 <= x < i + 1 && 0 <= y < |pages[..i + 1][x]| && pages[..i + 1][x][y] == k;
      if x < i { assert pages[..i][x][y] == k; }
    }
    forall k | k in b + c ensures k in a {
      if k in b {
        var x, y :| 0 <= x < i && 0 <= y < |pages[..i][x]| && pages[..i][x][y] == k;
        assert pages[..i + 1][x][y] == k;
      } else {
        var y :| 0 <= y < |pages[i]| && pages[i][y] == k;
        assert pages[..i + 1][i][y] == k;
      }
    }
  }

  /**
   Both stores mean the same by a purge: the memory store, which still holds
   expired entries, reports the count and leaves the visible entries that a
   store without them would.
   */
  lemma PurgesAgree<T>(entries: map<string, Entry<T>>, prefix: string, now: real, later: real)
    requires now <= later
    ensures |Under(LiveKeys(entries, now), prefix)| == |Under(Visible(entries, now).Keys, prefix)|
    ensures Visible(Without(entries, prefix), now) == Without(Visible(entries, now), prefix)
    ensures Visible(Without(entries, prefix), later).Keys <= Without(Visible(entries, now), prefix).Keys
  {
    assert LiveKeys(entries, now) == Visible(entries, now).Keys;
  }
}
