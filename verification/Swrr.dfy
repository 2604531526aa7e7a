/** Smooth weighted round robin (internal/balancer/swrr.go) and its exact fairness. */
module SmoothRoundRobin {
  import opened Backends
  import opened Options

  function Raised(currents: seq<int>, ws: seq<int>): (r: seq<int>)
    requires |currents| == |ws|
    ensures |r| == |ws| && forall i {:trigger r[i]} :: 0 <= i < |ws| ==> r[i] == currents[i] + ws[i]
  {
    seq(|ws|, i requires 0 <= i < |ws| => currents[i] + ws[i])
  }

  /** xs[k] is the first greatest among the first n elements. */
  ghost predicate IsBest(xs: seq<int>, k: int, n: int) {
    && 0 <= k < n <= |xs|
    && (forall i :: 0 <= i < n ==> xs[i] <= xs[k])
    && (forall i :: 0 <= i < k ==> xs[i] < xs[k])
  }

  /** The first greatest of the first n elements: a later one must be strictly greater to displace it. */
  function Best(xs: seq<int>, n: nat): (k: nat)
    requires 0 < n <= |xs|
    ensures k < n
  {
    if n == 1 then 0
    else
      var k := Best(xs, n - 1);
      if xs[k] < xs[n - 1] then n - 1 else k
  }

  lemma {:induction false} BestIsGreatest(xs: seq<int>, n: nat)
    requires 0 < n <= |xs|
    ensures IsBest(xs, Best(xs, n), n)
  {
    if n > 1 { BestIsGreatest(xs, n - 1); }
  }

  /** One selection: the current weights afterwards and the index picked. */
  function Turn(currents: seq<int>, ws: seq<int>): (r: (seq<int>, nat))
    requires |currents| == |ws| > 0
    ensures |r.0| == |ws| && r.1 < |ws|
  {
    var up := Raised(currents, ws);
    var k := Best(up, |up|);
    (up[k := up[k] - Sum(ws)], k)
  }

  /** A backend not in the table yet counts as zero. */
  function Get<T(==)>(m: map<T, int>, b: T): int { if b in m then m[b] else 0 }

  ghost function Row<T>(m: map<T, int>, bs: seq<T>): (cs: seq<int>)
    ensures |cs| == |bs| && forall i {:trigger cs[i]} :: 0 <= i < |bs| ==> cs[i] == Get(m, bs[i])
  {
    seq(|bs|, i requires 0 <= i < |bs| => Get(m, bs[i]))
  }

  /** The entries of backends outside the healthy set are kept. */
  ghost predicate Others<T>(bs: seq<T>, before: map<T, int>, after: map<T, int>) {
    before - Members(bs) == after - Members(bs)
  }

  ghost function Members<T>(bs: seq<T>): set<T> { set b | b in bs }

  class Swrr {
    var current: map<Backend, int>

    constructor ()
      ensures current == map[]
    {
      current := map[];
    }

    method Next(healthy: seq<Backend>) returns (r: Option<Backend>)
      requires Distinct(healthy)
      modifies this, (set b | b in healthy)`activeConns
      ensures healthy == [] ==> r == None && current == old(current)
      ensures healthy != [] ==>
                var turn := Turn(old(Row(current, healthy)), Effectives(old(Weights(healthy))));
                && r == Some(healthy[turn.1])
                && Row(current, healthy) == turn.0
                && Others(healthy, old(current), current)
                && Reserved(healthy, r.value)
    {
      if healthy == [] { return None; }
      var cur, best := Settle(current, healthy, Weights(healthy));
      current := cur;
      healthy[best].IncrConn();
      return Some(healthy[best]);
    }
  }

  /** What one selection does to the table, given the weights it reads. */
  method Settle<T(==)>(current: map<T, int>, healthy: seq<T>, weights: seq<int>) returns (cur: map<T, int>, best: nat)
    requires Distinct(healthy) && |weights| == |healthy| > 0
    ensures (Row(cur, healthy), best) == Turn(Row(current, healthy), Effectives(weights))
    ensures Others(healthy, current, cur)
  {
    ghost var up := Raised(Row(current, healthy), Effectives(weights));
    var total;
    cur, total, best := Raise(current, healthy, weights, up);
    assert Row(cur, healthy) == up && Row(cur, healthy)[best] == up[best];
    OnlyOne(current, cur, healthy, best, up[best] - total);
    cur := cur[healthy[best] := Get(cur, healthy[best]) - total];
  }

  /** The selection loop: every current weight is raised, the greatest is remembered. */
  method Raise<T(==)>(current: map<T, int>, healthy: seq<T>, weights: seq<int>, ghost up: seq<int>)
    returns (cur: map<T, int>, total: int, best: nat)
    requires Distinct(healthy) && |up| == |weights| == |healthy| > 0
    requires forall j {:trigger up[j]} :: 0 <= j < |up| ==> up[j] == Get(current, healthy[j]) + Effective(weights[j])
    ensures total == Sum(Effectives(weights)) && best == Best(up, |up|)
    ensures RaisedUpTo(current, cur, healthy, up, |healthy|)
  {
    cur, total, best := current, 0, 0;
    for i := 0 to |healthy|
      invariant total == SumTo(Effectives(weights), i)
      invariant RaisedUpTo(current, cur, healthy, up, i)
      invariant if i == 0 then best == 0 else best == Best(up, i)
    {
      var w := Effective(weights[i]);
      total := total + w;
      RaiseOne(current, cur, healthy, up, i, best);
      cur := cur[healthy[i] := Get(cur, healthy[i]) + w];
      if i == 0 || Get(cur, healthy[i]) > Get(cur, healthy[best]) { best := i; }
    }
  }

  /** The first i rows are raised, the others and everything else are as before. */
  ghost predicate RaisedUpTo<T>(current: map<T, int>, cur: map<T, int>, healthy: seq<T>, up: seq<int>, i: nat)
    requires i <= |healthy| == |up|
  {
    && Others(healthy, current, cur)
    && (forall j :: 0 <= j < i ==> Get(cur, healthy[j]) == up[j])
    && (forall j :: i <= j < |healthy| ==> Get(cur, healthy[j]) == Get(current, healthy[j]))
  }

  lemma RaiseOne<T>(current: map<T, int>, cur: map<T, int>, healthy: seq<T>, up: seq<int>, i: nat, best: nat)
    requires Distinct(healthy) && best <= i < |healthy| == |up| && RaisedUpTo(current, cur, healthy, up, i)
    ensures Get(cur, healthy[i]) == Get(current, healthy[i])
    ensures RaisedUpTo(current, cur[healthy[i] := up[i]], healthy, up, i + 1)
    ensures Get(cur[healthy[i] := up[i]], healthy[i]) == up[i]
    ensures Get(cur[healthy[i] := up[i]], healthy[best]) == up[best]
  {
    OnlyOne(current, cur, healthy, i, up[i]);
  }

  lemma OnlyOne<T>(m0: map<T, int>, m: map<T, int>, bs: seq<T>, i: nat, v: int)
    requires Distinct(bs) && i < |bs| && Others(bs, m0, m)
    ensures Others(bs, m0, m[bs[i] := v])
    ensures Row(m[bs[i] := v], bs) == Row(m, bs)[i := v]
  {
    assert m[bs[i] := v] - Members(bs) == m - Members(bs);
  }

  // ---------------------------------------------------------------------------
  // Runs over a fixed healthy set with fixed weights
  // ---------------------------------------------------------------------------

  ghost predicate Positive(ws: seq<int>) { ws != [] && forall i :: 0 <= i < |ws| ==> 1 <= ws[i] }

  function Zeros(n: nat): (z: seq<int>)
    ensures |z| == n && forall i :: 0 <= i < n ==> z[i] == 0
  {
    seq(n, i => 0)
  }

  /** A run: the current weights before and after each selection, from all zero, and the picks. */
  /** A new table starts every run. */
  lemma NewTable<T>(bs: seq<T>)
    ensures Row(map[], bs) == Zeros(|bs|)
  {
    assert forall i :: 0 <= i < |bs| ==> Row(map[], bs)[i] == Zeros(|bs|)[i];
  }

  ghost predicate IsRun(ws: seq<int>, css: seq<seq<int>>, picks: seq<nat>) {
    && |css| == |picks| + 1
    && css[0] == Zeros(|ws|)
    && (forall t :: 0 <= t < |css| ==> |css[t]| == |ws|)
    && (forall t :: 0 <= t < |picks| ==> Took(ws, css[t], css[t + 1], picks[t]))
  }

  ghost predicate Took(ws: seq<int>, before: seq<int>, after: seq<int>, pick: nat) {
    |before| == |ws| > 0 && (after, pick) == Turn(before, ws)
  }

  /** How many of the selections lo..hi chose index i. */
  function Count(picks: seq<nat>, i: nat, lo: nat, hi: nat): nat
    requires lo <= hi <= |picks|
    decreases hi
  {
    if lo == hi then 0 else Count(picks, i, lo, hi - 1) + if picks[hi - 1] == i then 1 else 0
  }

  lemma {:induction false} SumRaised(cs: seq<int>, ws: seq<int>, n: nat)
    requires |cs| == |ws| && n <= |ws|
    ensures SumTo(Raised(cs, ws), n) == SumTo(cs, n) + SumTo(ws, n)
  {
    if n > 0 { SumRaised(cs, ws, n - 1); }
  }

  lemma PositiveTotal(ws: seq<int>)
    requires Positive(ws)
    ensures 1 <= Sum(ws)
  {
    SumBounded(Zeros(|ws|), ws);
    SumOfSame(Zeros(|ws|), 0);
    assert Zeros(|ws|)[0] != ws[0];
  }

  /** The run invariants: the currents sum to zero and none falls as low as minus the total. */
  ghost predicate Level(cs: seq<int>, ws: seq<int>) {
    |cs| == |ws| && Sum(cs) == 0 && forall i :: 0 <= i < |ws| ==> -Sum(ws) < cs[i]
  }

  lemma TurnKeepsLevel(cs: seq<int>, ws: seq<int>)
    requires Positive(ws) && Level(cs, ws)
    ensures Level(Turn(cs, ws).0, ws)
  {
    var up := Raised(cs, ws);
    var k := Best(up, |up|);
    BestIsGreatest(up, |up|);
    PositiveTotal(ws);
    SumRaised(cs, ws, |ws|);
    SumUpdate(up, k, up[k] - Sum(ws));
    assert 0 < up[k] by {
      if up[k] <= 0 {
        SumBounded(up, Zeros(|ws|));
        SumOfSame(Zeros(|ws|), 0);
      }
    }
  }

  lemma {:induction false} AlwaysLevel(ws: seq<int>, css: seq<seq<int>>, picks: seq<nat>, t: nat)
    requires Positive(ws) && IsRun(ws, css, picks) && t < |css|
    ensures Level(css[t], ws)
  {
    if t == 0 {
      PositiveTotal(ws);
      SumOfSame(Zeros(|ws|), 0);
    } else {
      AlwaysLevel(ws, css, picks, t - 1);
      assert Took(ws, css[t - 1], css[t], picks[t - 1]);
      TurnKeepsLevel(css[t - 1], ws);
    }
  }

  function Owed(n: int, w: int, picks: int, W: int): int { n * w - picks * W }

  lemma OwedAfter(n: int, w: int, picks: int, W: int)
    ensures Owed(0, w, 0, W) == 0
    ensures Owed(n + 1, w, picks, W) == Owed(n, w, picks, W) + w
    ensures Owed(n + 1, w, picks + 1, W) == Owed(n, w, picks, W) + w - W
  {}

  lemma TurnAt(cs: seq<int>, ws: seq<int>, i: nat)
    requires |cs| == |ws| && i < |ws|
    ensures Turn(cs, ws).0[i] == cs[i] + ws[i] - (if Turn(cs, ws).1 == i then Sum(ws) else 0)
  {}

  /** Each current weight is what its owner is owed: t shares due, less the picks received. */
  lemma {:induction false} Ledger(ws: seq<int>, css: seq<seq<int>>, picks: seq<nat>, i: nat, t: nat)
    requires IsRun(ws, css, picks) && i < |ws| && t < |css|
    ensures css[t][i] == Owed(t, ws[i], Count(picks, i, 0, t), Sum(ws))
  {
    if t == 0 {
      OwedAfter(0, ws[i], 0, Sum(ws));
    } else {
      Ledger(ws, css, picks, i, t - 1);
      OwedAfter(t - 1, ws[i], Count(picks, i, 0, t - 1), Sum(ws));
      assert Took(ws, css[t - 1], css[t], picks[t - 1]);
      TurnAt(css[t - 1], ws, i);
    }
  }

  /** The picks of each index among the first n selections. */
  function Tally(picks: seq<nat>, m: nat, n: nat): (c: seq<int>)
    requires n <= |picks|
    ensures |c| == m && forall i {:trigger c[i]} :: 0 <= i < m ==> c[i] == Count(picks, i, 0, n)
  {
    seq(m, i requires 0 <= i < m => Count(picks, i, 0, n))
  }

  lemma {:induction false} TallySum(picks: seq<nat>, m: nat, n: nat)
    requires n <= |picks| && forall t :: 0 <= t < n ==> picks[t] < m
    ensures Sum(Tally(picks, m, n)) == n
  {
    var after := Tally(picks, m, n);
    if n == 0 {
      SumOfSame(after, 0);
    } else {
      TallySum(picks, m, n - 1);
      var before, k := Tally(picks, m, n - 1), picks[n - 1];
      SumUpdate(before, k, before[k] + 1);
      assert after == before[k := before[k] + 1];
    }
  }

  lemma AtMost(W: int, w: int, t: int)
    requires 1 <= W && -W < Owed(W, w, t, W)
    ensures t <= w
  {
    assert w + 1 <= t ==> (w + 1) * W <= t * W;
  }

  /** After one full cycle every backend has exactly its weight and every current is zero again. */
  lemma {:induction false} FullCycle(ws: seq<int>, css: seq<seq<int>>, picks: seq<nat>)
    requires Positive(ws) && IsRun(ws, css, picks) && 0 <= Sum(ws) <= |picks|
    ensures Tally(picks, |ws|, Sum(ws)) == ws
    ensures css[Sum(ws)] == css[0]
  {
    var W := Sum(ws);
    var c := Tally(picks, |ws|, W);
    PositiveTotal(ws);
    AlwaysLevel(ws, css, picks, W);
    forall i | 0 <= i < |ws| ensures c[i] <= ws[i] {
      Ledger(ws, css, picks, i, W);
      AtMost(W, ws[i], c[i]);
    }
    PicksInRange(ws, css, picks);
    TallySum(picks, |ws|, W);
    SumBounded(c, ws);
    forall i | 0 <= i < |ws| ensures css[W][i] == 0 {
      Ledger(ws, css, picks, i, W);
      assert c[i] == ws[i];
    }
  }

  lemma PicksInRange(ws: seq<int>, css: seq<seq<int>>, picks: seq<nat>)
    requires IsRun(ws, css, picks)
    ensures forall t :: 0 <= t < |picks| ==> picks[t] < |ws|
  {
    forall t | 0 <= t < |picks| ensures picks[t] < |ws| { assert Took(ws, css[t], css[t + 1], picks[t]); }
  }

  lemma {:induction false} Periodic(ws: seq<int>, css: seq<seq<int>>, picks: seq<nat>, n: nat)
    requires Positive(ws) && IsRun(ws, css, picks) && 0 <= Sum(ws) && n + Sum(ws) <= |picks|
    ensures css[n + Sum(ws)] == css[n]
    ensures n + Sum(ws) < |picks| ==> picks[n + Sum(ws)] == picks[n]
  {
    var W := Sum(ws);
    PositiveTotal(ws);
    if n == 0 {
      FullCycle(ws, css, picks);
    } else {
      Periodic(ws, css, picks, n - 1);
      assert Took(ws, css[n - 1], css[n], picks[n - 1]);
      assert Took(ws, css[n - 1 + W], css[n - 1 + W + 1], picks[n - 1 + W]);
    }
    if n + W < |picks| {
      assert Took(ws, css[n], css[n + 1], picks[n]);
      assert Took(ws, css[n + W], css[n + W + 1], picks[n + W]);
    }
  }

  lemma {:induction false} CountSplit(picks: seq<nat>, i: nat, a: nat, b: nat, c: nat)
    requires a <= b <= c <= |picks|
    ensures Count(picks, i, a, c) == Count(picks, i, a, b) + Count(picks, i, b, c)
    decreases c
  {
    if b < c { CountSplit(picks, i, a, b, c - 1); }
  }

  lemma SameShare(W: int, n: int, w: int, p: int, d: int)
    requires 1 <= W && Owed(n, w, p, W) == Owed(n + W, w, p + d, W)
    ensures d == w
  {
    assert (n + W) * w == n * w + W * w && (p + d) * W == p * W + d * W;
    assert W * w == W * d;
    assert (w < d ==> W * w < W * d) && (d < w ==> W * d < W * w);
  }

  /** Two moments at which a backend is owed the same are as many of its shares apart as it had picks. */
  lemma SharesApart(w: int, W: int, picks: seq<nat>, i: nat, n: nat)
    requires 1 <= W && n + W <= |picks|
    requires Owed(n, w, Count(picks, i, 0, n), W) == Owed(n + W, w, Count(picks, i, 0, n + W), W)
    ensures Count(picks, i, n, n + W) == w
  {
    CountSplit(picks, i, 0, n, n + W);
    SameShare(W, n, w, Count(picks, i, 0, n), Count(picks, i, n, n + W));
  }

  lemma FairWindow(ws: seq<int>, css: seq<seq<int>>, picks: seq<nat>, i: nat, n: nat)
    requires Positive(ws) && IsRun(ws, css, picks) && i < |ws| && 0 <= Sum(ws) && n + Sum(ws) <= |picks|
    requires css[n + Sum(ws)] == css[n]
    ensures Count(picks, i, n, n + Sum(ws)) == ws[i]
  {
    var W := Sum(ws);
    PositiveTotal(ws);
    assert Owed(n, ws[i], Count(picks, i, 0, n), W) == css[n][i] by { Ledger(ws, css, picks, i, n); }
    assert Owed(n + W, ws[i], Count(picks, i, 0, n + W), W) == css[n][i] by { Ledger(ws, css, picks, i, n + W); }
    SharesApart(ws[i], W, picks, i, n);
  }

  /**
    Exact fairness: in every run, any W = Sum(ws) consecutive selections choose each backend
    exactly its weight many times, and picks and currents repeat with period W.
  */
  lemma ExactlyFair(ws: seq<int>, css: seq<seq<int>>, picks: seq<nat>, i: nat, n: nat)
    requires Positive(ws) && IsRun(ws, css, picks) && i < |ws| && 0 <= Sum(ws) && n + Sum(ws) <= |picks|
    ensures Count(picks, i, n, n + Sum(ws)) == ws[i]
    ensures css[n + Sum(ws)] == css[n]
    ensures n + Sum(ws) < |picks| ==> picks[n + Sum(ws)] == picks[n]
  {
    Periodic(ws, css, picks, n);
    FairWindow(ws, css, picks, i, n);
  }

  /**
    The weights that a run turns on are those of the backends: in every cycle a backend of positive
    weight is picked exactly that many times, any other one once.
  */
  lemma FairToWeights(ws: seq<int>, css: seq<seq<int>>, picks: seq<nat>, i: nat, n: nat)
    requires i < |ws| && IsRun(Effectives(ws), css, picks)
    requires 0 <= Sum(Effectives(ws)) && n + Sum(Effectives(ws)) <= |picks|
    ensures Count(picks, i, n, n + Sum(Effectives(ws))) == if 1 <= ws[i] then ws[i] else 1
  {
    assert forall j :: 0 <= j < |ws| ==> 1 <= Effectives(ws)[j];
    ExactlyFair(Effectives(ws), css, picks, i, n);
  }

  lemma LessThanOneAhead(n: int, w: int, p: int, W: int)
    requires -W < Owed(n, w, p, W)
    ensures (p - 1) * W < n * w
  {}

  /** Smoothness: at no point is a backend a full pick ahead of its share. */
  lemma NeverAFullPickAhead(ws: seq<int>, css: seq<seq<int>>, picks: seq<nat>, i: nat, t: nat)
    requires Positive(ws) && IsRun(ws, css, picks) && i < |ws| && t < |css|
    ensures (Count(picks, i, 0, t) - 1) * Sum(ws) < t * ws[i]
  {
    AlwaysLevel(ws, css, picks, t);
    Ledger(ws, css, picks, i, t);
    LessThanOneAhead(t, ws[i], Count(picks, i, 0, t), Sum(ws));
  }
}
