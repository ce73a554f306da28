/** Small shared vocabulary: optional values and integer arithmetic helpers. */
module Common {

  datatype Option<+T> = None | Some(value: T)

  function Min(a: int, b: int): int { if a <= b then a else b }

  function Max(a: int, b: int): int { if a >= b then a else b }

  function Front<T>(s: seq<T>): seq<T>
    requires |s| > 0
  {
    s[..|s| - 1]
  }

  function Last<T>(s: seq<T>): T
    requires |s| > 0
  {
    s[|s| - 1]
  }

  /** The least integer q with a <= q * b. */
  function CeilDiv(a: int, b: int): int
    requires b >= 1
  {
    (a + b - 1) / b
  }

  /** The ceiling is the threshold: d * b reaches a exactly when d reaches CeilDiv(a, b). */
  lemma CeilDivIsThreshold(a: int, b: int, d: int)
    requires b >= 1
    ensures d * b >= a <==> d >= CeilDiv(a, b)
  {
    var q := CeilDiv(a, b);
    assert a + b - 1 == q * b + (a + b - 1) % b;
    assert (q - 1) * b < a <= q * b;
    if d >= q {
      assert d * b >= q * b by { MulMonotone(q, d, b); }
    } else {
      assert d * b <= (q - 1) * b by { MulMonotone(d, q - 1, b); }
    }
  }

  lemma MulMonotone(x: int, y: int, k: int)
    requires x <= y && k >= 0
    ensures x * k <= y * k
  {
    assert (y - x) * k >= 0;
  }

  /** Start of the aligned window of length w that holds t. */
  function WindowStart(t: int, w: int): int
    requires w >= 1
  {
    (t / w) * w
  }

  lemma WindowStartBounds(t: int, w: int)
    requires w >= 1
    ensures WindowStart(t, w) <= t < WindowStart(t, w) + w
  {
    assert t == (t / w) * w + t % w;
  }

  /** Aligned windows tile time: later starts are equal, the next one, or at least two windows on. */
  lemma WindowStartsApart(t: int, u: int, w: int)
    requires w >= 1 && t <= u
    ensures var s, s' := WindowStart(t, w), WindowStart(u, w);
            s' == s || s' == s + w || s' >= s + 2 * w
  {
    var i, j := t / w, u / w;
    WindowStartBounds(t, w);
    WindowStartBounds(u, w);
    assert (i + 1) * w == i * w + w && (i + 2) * w == i * w + 2 * w && (j + 1) * w == j * w + w;
    if j + 1 <= i { MulMonotone(j + 1, i, w); }
    if i + 2 <= j { MulMonotone(i + 2, j, w); }
  }

  /** Some number is not in a finite set: every member is below the bound. */
  lemma {:induction false} Unused(ids: set<nat>) returns (bound: nat)
    ensures forall i :: i in ids ==> i < bound
  {
    if ids == {} {
      bound := 0;
    } else {
      var i :| i in ids;
      var f := Unused(ids - {i});
      bound := if f > i then f else i + 1;
      assert forall j :: j in ids ==> j == i || j in ids - {i};
    }
  }
}
