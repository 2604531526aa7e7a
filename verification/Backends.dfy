/** The backend record shared by the balancing algorithms (internal/balancer/balancer.go). */
module Backends {
  import opened Options

  class Backend {
    const url: string
    const maxConns: int
    const zone: string
    const tier: int
    var weight: int
    var healthy: bool
    var activeConns: int

    constructor (url: string, maxConns: int, zone: string, tier: int, weight: int)
      ensures this.url == url && this.maxConns == maxConns && this.zone == zone && this.tier == tier
      ensures this.weight == weight && healthy && activeConns == 0
    {
      this.url, this.maxConns, this.zone, this.tier := url, maxConns, zone, tier;
      this.weight, healthy, activeConns := weight, true, 0;
    }

    method IncrConn()
      modifies this`activeConns
      ensures activeConns == old(activeConns) + 1
    {
      activeConns := activeConns + 1;
    }

    method DecrConn()
      modifies this`activeConns
      ensures activeConns == old(activeConns) - 1
    {
      activeConns := activeConns - 1;
    }
  }

  ghost predicate Distinct<T>(bs: seq<T>) {
    forall i, j :: 0 <= i < j < |bs| ==> bs[i] != bs[j]
  }

  /** A reservation: one connection more on `picked`, every other count as before. */
  twostate predicate Reserved(bs: seq<Backend>, picked: Backend)
    reads bs, picked
  {
    && picked.activeConns == old(picked.activeConns) + 1
    && forall b :: b in bs && b != picked ==> b.activeConns == old(b.activeConns)
  }

  function Weights(bs: seq<Backend>): (ws: seq<int>)
    reads bs
    ensures |ws| == |bs| && forall i {:trigger ws[i]} :: 0 <= i < |bs| ==> ws[i] == bs[i].weight
  {
    seq(|bs|, i requires 0 <= i < |bs| reads bs => bs[i].weight)
  }

  /** Weights that are not positive count as one in smooth round robin and in the random form. */
  function Effective(w: int): (r: int)
    ensures 1 <= r
  {
    if w <= 0 then 1 else w
  }

  function Effectives(ws: seq<int>): (es: seq<int>)
    ensures |es| == |ws| && forall i {:trigger es[i]} :: 0 <= i < |ws| ==> es[i] == Effective(ws[i])
  {
    seq(|ws|, i requires 0 <= i < |ws| => Effective(ws[i]))
  }

  function SumTo(s: seq<int>, n: nat): int
    requires n <= |s|
  {
    if n == 0 then 0 else SumTo(s, n - 1) + s[n - 1]
  }

  function Sum(s: seq<int>): int { SumTo(s, |s|) }

  lemma {:induction false} SumToUpdate(s: seq<int>, k: nat, v: int, n: nat)
    requires k < |s| && n <= |s|
    ensures SumTo(s[k := v], n) == SumTo(s, n) + if k < n then v - s[k] else 0
  {
    if n > 0 { SumToUpdate(s, k, v, n - 1); }
  }

  lemma SumUpdate(s: seq<int>, k: nat, v: int)
    requires k < |s|
    ensures Sum(s[k := v]) == Sum(s) - s[k] + v
  {
    SumToUpdate(s, k, v, |s|);
  }

  lemma {:induction false} SumToBounded(a: seq<int>, b: seq<int>, n: nat)
    requires |a| == |b| && n <= |a| && forall i :: 0 <= i < |a| ==> a[i] <= b[i]
    ensures SumTo(a, n) <= SumTo(b, n)
    ensures SumTo(a, n) == SumTo(b, n) ==> forall i :: 0 <= i < n ==> a[i] == b[i]
  {
    if n > 0 { SumToBounded(a, b, n - 1); }
  }

  lemma SumBounded(a: seq<int>, b: seq<int>)
    requires |a| == |b| && forall i :: 0 <= i < |a| ==> a[i] <= b[i]
    ensures Sum(a) <= Sum(b)
    ensures Sum(a) == Sum(b) ==> a == b
  {
    SumToBounded(a, b, |a|);
  }

  lemma {:induction false} SumToOfSame(s: seq<int>, v: int, n: nat)
    requires n <= |s| && forall i :: 0 <= i < |s| ==> s[i] == v
    ensures SumTo(s, n) == n * v
  {
    if n > 0 {
      SumToOfSame(s, v, n - 1);
      assert n * v == (n - 1) * v + v;
    }
  }

  lemma SumOfSame(s: seq<int>, v: int)
    requires forall i :: 0 <= i < |s| ==> s[i] == v
    ensures Sum(s) == |s| * v
  {
    SumToOfSame(s, v, |s|);
  }

  lemma ModIs(x: int, m: int, q: int, r: int)
    requires 0 < m && 0 <= r < m && x == m * q + r
    ensures x % m == r
  {
    var d := x / m - q;
    assert m * d == r - x % m;
    assert d <= -1 ==> m * d <= -m;
    assert d >= 1 ==> m * d >= m;
  }
}
