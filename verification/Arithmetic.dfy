/** Facts about integers that several modules need: division, wrap-around and ascending keys. */
module Arithmetic {
  lemma DivideTwice(n: nat, a: nat, b: nat)
    requires a > 0 && b > 0
    ensures a * b > 0 && (n / a) / b == n / (a * b)
  {
    var v: nat := n / a % b;
    Compose(n, a, b, n / a, n % a, n / a / b, v);
    var rest: nat := a * v + n % a;
    QuotientUnique(n, a * b, n / a / b, rest);
  }

  lemma Compose(n: nat, a: nat, b: nat, q: nat, u: nat, r: nat, v: nat)
    requires n == a * q + u && u < a && q == b * r + v && v < b
    ensures a * b > 0 && n == (a * b) * r + (a * v + u) && 0 <= a * v + u < a * b
  {
    assert a * (b * r + v) == (a * b) * r + a * v;
    AtLeastOnce(a, b - v);
    assert a * b == a * v + a * (b - v);
    AtLeastOnce(a, v);
  }

  lemma AtLeastOnce(d: int, k: int)
    requires d > 0
    ensures k >= 0 ==> d * k >= 0
    ensures k >= 1 ==> d * k >= d
    ensures k <= -1 ==> d * k <= -d
  {
  }

  lemma QuotientUnique(n: nat, d: nat, q: nat, r: nat)
    requires d > 0 && n == d * q + r && r < d
    ensures n / d == q
  {
    var q' := n / d;
    assert n == d * q' + n % d;
    assert d * (q' - q) == r - n % d;
    AtLeastOnce(d, q' - q);
  }

  /** Saturating subtraction. */
  function SatSub(a: nat, b: nat): nat {
    if a >= b then a - b else 0
  }

  lemma ModShift(m: nat, q: nat, z: nat)
    requires m > 0
    ensures m * q + z >= 0 && (m * q + z) % m == z % m
  {
    AtLeastOnce(m, q);
    var n: nat := m * q + z;
    assert z == m * (z / m) + z % m;
    assert n == m * (q + z / m) + z % m;
    QuotientUnique(n, m, q + z / m, z % m);
    assert n == m * (n / m) + n % m;
  }

  /** Wrapping an operand first does not change a wrapped sum. */
  lemma AddWrapped(x: nat, y: nat, m: nat)
    requires m > 0
    ensures (x % m + y) % m == (x + y) % m
  {
    assert x == m * (x / m) + x % m;
    ModShift(m, x / m, x % m + y);
  }

  /** The keys of a map as an ordered store hands them out. */
  ghost predicate Ascending(order: seq<nat>, keys: set<nat>) {
    && (forall i, j | 0 <= i < j < |order| :: order[i] < order[j])
    && (forall k :: k in order <==> k in keys)
  }

  /** The keys lo..hi-1 in ascending order are just lo, lo+1, and so on. */
  lemma {:induction false} AscendingIsCounting(order: seq<nat>, keys: set<nat>, lo: nat, hi: nat, i: nat)
    requires Ascending(order, keys) && (forall k: nat :: k in keys <==> lo <= k < hi)
    requires i <= |order|
    ensures (i > 0 ==> lo + i <= hi) && forall j | 0 <= j < i :: order[j] == lo + j
  {
    if i > 0 {
      AscendingIsCounting(order, keys, lo, hi, i - 1);
      assert order[i - 1] in keys;
      if i > 1 { assert order[i - 2] < order[i - 1]; }
      assert lo + i - 1 in keys;
      var j :| 0 <= j < |order| && order[j] == lo + i - 1;
    }
  }

  lemma AllCounted(order: seq<nat>, keys: set<nat>, lo: nat, hi: nat)
    requires Ascending(order, keys) && (forall k: nat :: k in keys <==> lo <= k < hi) && lo <= hi
    ensures |order| == hi - lo && forall j | 0 <= j < |order| :: order[j] == lo + j
  {
    AscendingIsCounting(order, keys, lo, hi, |order|);
    if lo < hi {
      assert hi - 1 in keys;
      var j :| 0 <= j < |order| && order[j] == hi - 1;
    }
  }
}
