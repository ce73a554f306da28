/** Strings as the gateway cuts and glues them: indexOf, split and join on one character. */
module Text {
  import opened Common

  /** The first index of c in s, or -1. */
  function IndexOf(s: string, c: char): (i: int)
    ensures -1 <= i < |s|
    ensures i == -1 <==> c !in s
    ensures i >= 0 ==> s[i] == c && c !in s[..i]
  {
    if |s| == 0 then -1
    else if s[0] == c then 0
    else
      var rest := IndexOf(s[1..], c);
      assert s == [s[0]] + s[1..];
      if rest == -1 then -1 else assert s[..rest + 1] == [s[0]] + s[1..][..rest]; rest + 1
  }

  function Split(s: string, c: char): (parts: seq<string>)
    ensures |parts| >= 1 && forall i :: 0 <= i < |parts| ==> c !in parts[i]
    decreases |s|
  {
    var i := IndexOf(s, c);
    if i == -1 then [s] else [s[..i]] + Split(s[i + 1..], c)
  }

  function Join(parts: seq<string>, c: char): string {
    if |parts| == 0 then "" else if |parts| == 1 then parts[0] else parts[0] + [c] + Join(parts[1..], c)
  }

  predicate Free(parts: seq<string>, c: char) {
    forall i :: 0 <= i < |parts| ==> c !in parts[i]
  }

  /** The first occurrence of c in a + [c] + b is right after a, when a has none. */
  lemma IndexAfter(a: string, c: char, b: string)
    requires c !in a
    ensures IndexOf(a + [c] + b, c) == |a|
  {
    var s := a + [c] + b;
    var i := IndexOf(s, c);
    assert s[|a|] == c && forall k :: 0 <= k < |a| ==> s[k] == a[k];
    assert i >= 0 && forall k :: 0 <= k < i ==> s[..i][k] == s[k];
  }

  lemma SplitUnfolds(a: string, c: char, b: string)
    requires c !in a
    ensures Split(a + [c] + b, c) == [a] + Split(b, c)
    ensures Split(a, c) == [a]
  {
    var s := a + [c] + b;
    IndexAfter(a, c, b);
    hide IndexOf;
    assert s[..|a|] == a && s[|a| + 1..] == b;
  }

  lemma Regroup(x: string, c: char, y: string, b: string)
    ensures x + [c] + y + [c] + b == x + [c] + (y + [c] + b)
  {}

  lemma CutAt(a: string, c: char) returns (x: string, y: string)
    requires c in a
    ensures a == x + [c] + y && c !in x
  {
    var i := IndexOf(a, c);
    x, y := a[..i], a[i + 1..];
  }

  /** Splitting at one more separator cuts there and nowhere else. */
  lemma {:induction false} SplitAppend(a: string, c: char, b: string)
    ensures Split(a + [c] + b, c) == Split(a, c) + Split(b, c)
    decreases |a|
  {
    hide IndexOf, Split;
    if c !in a {
      SplitUnfolds(a, c, b);
    } else {
      var x, y := CutAt(a, c);
      SplitAppend(y, c, b);
      SplitUnfolds(x, c, y);
      SplitUnfolds(x, c, y + [c] + b);
      Regroup(x, c, y, b);
    }
  }

  /** Joining pieces and splitting again gives the pieces back. */
  lemma {:induction false} SplitOfJoin(parts: seq<string>, c: char)
    requires |parts| >= 1 && Free(parts, c)
    ensures Split(Join(parts, c), c) == parts
  {
    hide Split;
    assert c !in parts[0];
    if |parts| == 1 {
      SplitUnfolds(parts[0], c, "");
      assert parts == [parts[0]];
    } else {
      SplitOfJoin(parts[1..], c);
      SplitUnfolds(parts[0], c, Join(parts[1..], c));
      assert parts == [parts[0]] + parts[1..];
    }
  }

  lemma {:induction false} JoinAppend(a: seq<string>, b: seq<string>, c: char)
    requires |a| >= 1 && |b| >= 1
    ensures Join(a + b, c) == Join(a, c) + [c] + Join(b, c)
  {
    if |a| == 1 {
      assert (a + b)[1..] == b;
    } else {
      JoinAppend(a[1..], b, c);
      assert (a + b)[1..] == a[1..] + b;
      assert a[0] + [c] + (Join(a[1..], c) + [c] + Join(b, c)) == (a[0] + [c] + Join(a[1..], c)) + [c] + Join(b, c);
    }
  }
}
