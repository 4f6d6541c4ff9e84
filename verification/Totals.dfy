/** Sums over the values of a finite map. */
module Totals {
  import opened Blocks

  function Get(m: map<Addr, nat>, a: Addr): nat {
    if a in m then m[a] else 0
  }

  /** Two tables with the same balance for every address; a zero entry is no entry. */
  ghost predicate Same(m: map<Addr, nat>, n: map<Addr, nat>) {
    forall a :: Get(m, a) == Get(n, a)
  }

  ghost function Total(m: map<Addr, nat>): nat {
    if m == map[] then 0 else var a :| a in m; m[a] + Total(m - {a})
  }

  lemma {:induction false} TotalRemove(m: map<Addr, nat>, a: Addr)
    requires a in m
    ensures Total(m) == m[a] + Total(m - {a})
    decreases |m|
  {
    var b :| b in m && Total(m) == m[b] + Total(m - {b});
    if a != b {
      assert |m - {b}| < |m| && |m - {a}| < |m| by { Smaller(m, a); Smaller(m, b); }
      TotalRemove(m - {b}, a);
      TotalRemove(m - {a}, b);
      assert m - {a} - {b} == m - {b} - {a};
    }
  }

  lemma Smaller(m: map<Addr, nat>, a: Addr)
    requires a in m
    ensures |m - {a}| < |m|
  {
  }

  lemma TotalUpdate(m: map<Addr, nat>, a: Addr, v: nat)
    ensures Total(m[a := v]) == Total(m) - Get(m, a) + v
  {
    TotalRemove(m[a := v], a);
    assert m[a := v] - {a} == m - {a};
    if a in m {
      TotalRemove(m, a);
    } else {
      assert m - {a} == m;
    }
  }

  /** Any two balances fit into the total together. */
  lemma PartOfTotal(m: map<Addr, nat>, a: Addr, b: Addr)
    requires a != b
    ensures Get(m, a) + Get(m, b) <= Total(m)
  {
  }

  lemma TotalSame(m: map<Addr, nat>, n: map<Addr, nat>)
    requires Same(m, n)
    ensures Total(m) == Total(n)
  {
    TotalSameOver(m, n, m.Keys + n.Keys);
  }

  lemma {:induction false} TotalSameOver(m: map<Addr, nat>, n: map<Addr, nat>, keys: set<Addr>)
    requires Same(m, n) && m.Keys <= keys && n.Keys <= keys
    ensures Total(m) == Total(n)
    decreases keys
  {
    if keys == {} {
      assert m == map[] && n == map[];
    } else {
      hide Total;
      var a :| a in keys;
      Without(m, n, a);
      Without(n, m, a);
      assert (m - {a}).Keys <= keys - {a} && (n - {a}).Keys <= keys - {a};
      hide Same;
      TotalSameOver(m - {a}, n - {a}, keys - {a});
    }
  }

  lemma Without(m: map<Addr, nat>, n: map<Addr, nat>, a: Addr)
    requires Same(m, n)
    ensures Same(m - {a}, n - {a}) && Get(m, a) == Get(n, a) && Total(m) == Get(m, a) + Total(m - {a})
  {
    forall b
      ensures Get(m - {a}, b) == Get(n - {a}, b)
    {
      assert Get(m, b) == Get(n, b);
    }
    if a in m { TotalRemove(m, a); } else { assert m - {a} == m; }
  }
}
