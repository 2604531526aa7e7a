/**
  Weighted selection by prefix sums: the classic round robin (weighted.go), which walks with a
  32-bit counter, and the random form (weightedrandom.go), which walks with a draw.
*/
module WeightedSelection {
  import opened Backends
  import opened Options

  const WRAP: nat := 0x1_0000_0000

  ghost predicate Nonnegative(ws: seq<int>) { forall i :: 0 <= i < |ws| ==> 0 <= ws[i] }

  /** Position s of a cycle of Sum(ws) positions belongs to index i. */
  ghost predicate Hits(ws: seq<int>, i: nat, s: int)
    requires i < |ws|
  {
    SumTo(ws, i) <= s < SumTo(ws, i + 1)
  }

  lemma {:induction false} SumToMonotone(ws: seq<int>, a: nat, b: nat)
    requires Nonnegative(ws) && a <= b <= |ws|
    ensures SumTo(ws, a) <= SumTo(ws, b)
  {
    if a < b { SumToMonotone(ws, a, b - 1); }
  }

  lemma HitsUnique(ws: seq<int>, i: nat, j: nat, s: int)
    requires Nonnegative(ws) && i < |ws| && j < |ws| && Hits(ws, i, s) && Hits(ws, j, s)
    ensures i == j
  {
    if i < j { SumToMonotone(ws, i + 1, j); } else if j < i { SumToMonotone(ws, j + 1, i); }
  }

  // ---------------------------------------------------------------------------
  // The two walks
  // ---------------------------------------------------------------------------

  /** Round robin ignores weights that are not positive; the random form raises them to one (`Effectives`). */
  function Counted(ws: seq<int>): (cs: seq<int>)
    ensures |cs| == |ws| && forall i {:trigger cs[i]} :: 0 <= i < |ws| ==> cs[i] == if ws[i] > 0 then ws[i] else 0
  {
    seq(|ws|, i requires 0 <= i < |ws| => if ws[i] > 0 then ws[i] else 0)
  }

  method TotalCounted(ws: seq<int>) returns (total: int)
    ensures total == Sum(Counted(ws)) && 0 <= total
  {
    total := 0;
    for i := 0 to |ws|
      invariant total == SumTo(Counted(ws), i) && 0 <= total
    {
      if ws[i] > 0 { total := total + ws[i]; }
    }
  }

  /** The 32-bit prefix sum up to index k, which counts, is past position s. */
  ghost predicate Past(ws: seq<int>, s: int, k: nat)
    requires k < |ws|
  {
    ws[k] > 0 && s < SumTo(Counted(ws), k + 1) % 0x1_0000_0000
  }

  /** The first such index, or the first of all if there is none. */
  ghost predicate IsFirstPast(ws: seq<int>, s: int, k: nat) {
    k < |ws| && if exists j :: 0 <= j < |ws| && Past(ws, s, j)
                then Past(ws, s, k) && forall j :: 0 <= j < k ==> !Past(ws, s, j)
                else k == 0
  }

  lemma {:induction false} NonePast(ws: seq<int>, s: nat, n: nat)
    requires n <= |ws| && Sum(Counted(ws)) < WRAP && forall j :: 0 <= j < n ==> !Past(ws, s, j)
    ensures SumTo(Counted(ws), n) <= s
  {
    if n > 0 {
      NonePast(ws, s, n - 1);
      SumToMonotone(Counted(ws), 0, n);
      SumToMonotone(Counted(ws), n, |ws|);
      ModIs(SumTo(Counted(ws), n), WRAP, 0, SumTo(Counted(ws), n));
      assert !Past(ws, s, n - 1);
    }
  }

  /** With a total weight in the range of 32 bits that is the index that position s belongs to. */
  lemma FirstPastHits(ws: seq<int>, s: nat, k: nat)
    requires IsFirstPast(ws, s, k) && s < Sum(Counted(ws)) < WRAP
    ensures Hits(Counted(ws), k, s)
  {
    if forall j :: 0 <= j < |ws| ==> !Past(ws, s, j) {
      NonePast(ws, s, |ws|);
    } else {
      NonePast(ws, s, k);
      SumToMonotone(Counted(ws), 0, k + 1);
      SumToMonotone(Counted(ws), k + 1, |ws|);
      ModIs(SumTo(Counted(ws), k + 1), WRAP, 0, SumTo(Counted(ws), k + 1));
    }
  }

  /** The prefix-sum walk, in 32-bit arithmetic. */
  method WalkUp(ws: seq<int>, s: int) returns (k: nat)
    requires ws != [] && 0 <= s
    ensures IsFirstPast(ws, s, k)
  {
    var current := 0;
    for i := 0 to |ws|
      invariant current == SumTo(Counted(ws), i) % WRAP
      invariant forall j :: 0 <= j < i ==> !Past(ws, s, j)
    {
      if ws[i] <= 0 { continue; }
      SumToMonotone(Counted(ws), 0, i);
      AddMod(SumTo(Counted(ws), i), ws[i]);
      current := (current + ws[i]) % WRAP;
      if s < current { return i; }
    }
    return 0;
  }

  lemma AddMod(x: nat, w: nat)
    ensures (x % WRAP + w) % WRAP == (x + w) % WRAP
  {
    assert x == WRAP * (x / WRAP) + x % WRAP;
    var y := x % WRAP + w;
    ModIs(x + w, WRAP, x / WRAP + y / WRAP, y % WRAP);
  }

  method TotalEffective(ws: seq<int>) returns (total: int)
    ensures total == Sum(Effectives(ws)) && |ws| <= total
  {
    total := 0;
    for i := 0 to |ws|
      invariant total == SumTo(Effectives(ws), i) && i <= total
    {
      var w := ws[i];
      if w <= 0 { w := 1; }
      total := total + w;
    }
  }

  /** Subtracting weights until the draw turns negative stops on the index the draw belongs to. */
  method WalkDown(ws: seq<int>, draw: int) returns (k: nat)
    requires 0 <= draw < Sum(Effectives(ws))
    ensures k < |ws| && Hits(Effectives(ws), k, draw)
  {
    var r := draw;
    for i := 0 to |ws|
      invariant 0 <= r == draw - SumTo(Effectives(ws), i)
    {
      var w := ws[i];
      if w <= 0 { w := 1; }
      r := r - w;
      if r < 0 { return i; }
    }
    assert false;
  }

  /** Index k is what the walk finds for position s, and owns it if the total is below 2^32. */
  ghost predicate Owns(ws: seq<int>, k: nat, s: int) {
    IsFirstPast(ws, s, k) && (Sum(Counted(ws)) < WRAP ==> Hits(Counted(ws), k, s))
  }

  /** Where the counter leads, unless the 32-bit total is zero, by which the source then divides. */
  method Locate(ws: seq<int>, index: nat, total: nat) returns (k: nat)
    requires ws != [] && total == Sum(Counted(ws)) && total % WRAP != 0
    ensures Owns(ws, k, index % (total % 0x1_0000_0000))
  {
    var s := index % (total % WRAP);
    k := WalkUp(ws, s);
    if total < WRAP { FirstPastHits(ws, s, k); }
  }

  class WeightedRoundRobin {
    var current: nat

    constructor () ensures current == 0 { current := 0; }

    /**
      Counter, total and prefix sums are unsigned 32-bit numbers. A total that is a multiple of 2^32
      makes the modulo divide by zero: the call panics with the counter advanced and nothing reserved.
    */
    method Next(healthy: seq<Backend>) returns (r: Option<Backend>, panics: bool)
      requires current < WRAP
      modifies this, (set b | b in healthy)`activeConns
      ensures current < WRAP
      ensures healthy == [] ==> r == None && !panics && current == old(current)
      ensures healthy != [] && !panics ==> r.Some? && r.value in healthy && Reserved(healthy, r.value)
      ensures panics ==> r == None && forall b :: b in healthy ==> b.activeConns == old(b.activeConns)
      ensures var ws := Counted(old(Weights(healthy)));
              if Sum(ws) == 0 then
                !panics && (healthy != [] ==> r == Some(healthy[0])) && current == old(current)
              else
                && current == (old(current) + 1) % 0x1_0000_0000
                && (panics <==> Sum(ws) % 0x1_0000_0000 == 0)
                && (!panics ==> exists k :: && 0 <= k < |ws| && r == Some(healthy[k])
                                            && Owns(old(Weights(healthy)), k, old(current) % (Sum(ws) % 0x1_0000_0000)))
    {
      if healthy == [] { return None, false; }
      var ws := Weights(healthy);
      var total := TotalCounted(ws);
      var k := 0;
      if total != 0 {
        var index := current;
        current := (current + 1) % WRAP;
        if total % WRAP == 0 { return None, true; }
        k := Locate(ws, index, total);
      }
      healthy[k].IncrConn();
      return Some(healthy[k]), false;
    }
  }

  /** WeightedRandom.Next; `draw` is what the random source returns below a given bound. */
  method NextRandom(healthy: seq<Backend>, draw: nat -> nat) returns (r: Option<Backend>)
    requires forall n: nat :: 0 < n ==> draw(n) < n
    modifies (set b | b in healthy)`activeConns
    ensures healthy == [] ==> r == None
    ensures healthy != [] ==>
              var ws := Effectives(old(Weights(healthy)));
              && 0 < Sum(ws)
              && r.Some? && r.value in healthy && Reserved(healthy, r.value)
              && exists k :: 0 <= k < |ws| && r == Some(healthy[k]) && Hits(ws, k, draw(Sum(ws)))
  {
    if healthy == [] { return None; }
    var ws := Weights(healthy);
    var total := TotalEffective(ws);
    var k := WalkDown(ws, draw(total));
    healthy[k].IncrConn();
    return Some(healthy[k]);
  }

  // ---------------------------------------------------------------------------
  // Exact proportions
  // ---------------------------------------------------------------------------

  /** How many of the positions 0..n of a cycle belong to index i. */
  ghost function Share(ws: seq<int>, i: nat, n: nat): nat
    requires i < |ws|
  {
    if n == 0 then 0 else Share(ws, i, n - 1) + if Hits(ws, i, n - 1) then 1 else 0
  }

  lemma {:induction false} ShareIsClamped(ws: seq<int>, i: nat, n: nat)
    requires Nonnegative(ws) && i < |ws|
    ensures Share(ws, i, n) ==
            if n <= SumTo(ws, i) then 0 else if n <= SumTo(ws, i + 1) then n - SumTo(ws, i) else ws[i]
  {
    SumToMonotone(ws, 0, i);
    if n > 0 { ShareIsClamped(ws, i, n - 1); }
  }

  /** Exactly w draws out of Sum(ws) select a backend of weight w. */
  lemma DrawsAreProportional(ws: seq<int>, i: nat)
    requires Nonnegative(ws) && i < |ws| && 0 <= Sum(ws)
    ensures Share(ws, i, Sum(ws)) == ws[i]
  {
    ShareIsClamped(ws, i, Sum(ws));
    SumToMonotone(ws, i + 1, |ws|);
  }

  /** In the random form that is the backend's own weight if it is positive, and one otherwise. */
  lemma DrawsFollowWeights(ws: seq<int>, i: nat)
    requires i < |ws|
    ensures 0 <= Sum(Effectives(ws)) && Share(Effectives(ws), i, Sum(Effectives(ws))) == if 1 <= ws[i] then ws[i] else 1
  {
    var es := Effectives(ws);
    SumToMonotone(es, 0, |es|);
    DrawsAreProportional(es, i);
  }

  /** The selections of index i among n consecutive ones, from counter value c, wrap included. */
  ghost function Selections(ws: seq<int>, i: nat, c: nat, n: nat): nat
    requires i < |ws| && Sum(ws) > 0
  {
    if n == 0 then 0
    else Selections(ws, i, c, n - 1) + if Hits(ws, i, (c + n - 1) % WRAP % Sum(ws)) then 1 else 0
  }

  /** The same on a counter that never wraps. */
  ghost function Unwrapped(ws: seq<int>, i: nat, c: nat, n: nat): nat
    requires i < |ws| && Sum(ws) > 0
  {
    if n == 0 then 0 else Unwrapped(ws, i, c, n - 1) + if Hits(ws, i, (c + n - 1) % Sum(ws)) then 1 else 0
  }

  lemma {:induction false} UnwrappedShift(ws: seq<int>, i: nat, c: nat, n: nat)
    requires i < |ws| && Sum(ws) > 0
    ensures Unwrapped(ws, i, c, n + 1) ==
            Unwrapped(ws, i, c + 1, n) + if Hits(ws, i, c % Sum(ws)) then 1 else 0
  {
    if n > 0 { UnwrappedShift(ws, i, c, n - 1); }
  }

  lemma ModShift(c: nat, m: nat)
    requires 0 < m
    ensures (c + m) % m == c % m
  {
    assert c + m == m * (c / m + 1) + c % m;
    ModIs(c + m, m, c / m + 1, c % m);
  }

  lemma {:induction false} FullTurn(ws: seq<int>, i: nat, c: nat)
    requires Nonnegative(ws) && i < |ws| && Sum(ws) > 0
    ensures Unwrapped(ws, i, c, Sum(ws)) == ws[i]
  {
    var W := Sum(ws);
    if c == 0 {
      FirstTurn(ws, i, W);
      DrawsAreProportional(ws, i);
    } else {
      FullTurn(ws, i, c - 1);
      UnwrappedShift(ws, i, c - 1, W);
      ModShift(c - 1, W);
      assert Unwrapped(ws, i, c - 1, W + 1) ==
             Unwrapped(ws, i, c - 1, W) + if Hits(ws, i, (c - 1 + W) % W) then 1 else 0;
    }
  }

  lemma {:induction false} FirstTurn(ws: seq<int>, i: nat, n: nat)
    requires i < |ws| && Sum(ws) > 0 && n <= Sum(ws)
    ensures Unwrapped(ws, i, 0, n) == Share(ws, i, n)
  {
    if n > 0 {
      FirstTurn(ws, i, n - 1);
      ModIs(n - 1, Sum(ws), 0, n - 1);
    }
  }

  lemma BelowWrap(x: nat, m: nat)
    requires x < WRAP && 0 < m
    ensures x % WRAP % m == x % m
  {
    ModIs(x, WRAP, 0, x);
  }

  /** Within the range of the counter the wrap is invisible. */
  lemma {:induction false} NoWrap(ws: seq<int>, i: nat, c: nat, n: nat)
    requires i < |ws| && Sum(ws) > 0 && c + n <= WRAP
    ensures Selections(ws, i, c, n) == Unwrapped(ws, i, c, n)
  {
    if n > 0 {
      NoWrap(ws, i, c, n - 1);
      BelowWrap(c + n - 1, Sum(ws));
    }
  }

  /** Any Sum(ws) consecutive selections that do not cross the wrap pick each backend its weight many times. */
  lemma RoundRobinIsProportional(ws: seq<int>, i: nat, c: nat)
    requires Nonnegative(ws) && i < |ws| && Sum(ws) > 0 && c + Sum(ws) <= WRAP
    ensures Selections(ws, i, c, Sum(ws)) == ws[i]
  {
    NoWrap(ws, i, c, Sum(ws));
    FullTurn(ws, i, c);
  }

  /** In round robin that is the backend's own weight if it is positive, and none otherwise. */
  lemma RoundRobinFollowsWeights(ws: seq<int>, i: nat, c: nat)
    requires i < |ws| && Sum(Counted(ws)) > 0 && c + Sum(Counted(ws)) <= WRAP
    ensures Selections(Counted(ws), i, c, Sum(Counted(ws))) == if 1 <= ws[i] then ws[i] else 0
  {
    RoundRobinIsProportional(Counted(ws), i, c);
  }

  // ---------------------------------------------------------------------------
  // Across the wrap
  // ---------------------------------------------------------------------------

  /** Every window is exact, those that cross the wrap included. */
  ghost predicate AlwaysProportional(ws: seq<int>)
    requires Sum(ws) > 0
  {
    forall c, i :: 0 <= c < WRAP && 0 <= i < |ws| ==> Selections(ws, i, c, Sum(ws)) == ws[i]
  }

  lemma {:induction false} DivisorWrap(ws: seq<int>, i: nat, c: nat, n: nat)
    requires i < |ws| && Sum(ws) > 0 && WRAP % Sum(ws) == 0
    ensures Selections(ws, i, c, n) == Unwrapped(ws, i, c, n)
  {
    if n > 0 {
      DivisorWrap(ws, i, c, n - 1);
      ModOfMod(c + n - 1, Sum(ws));
    }
  }

  lemma ModOfMod(x: nat, m: nat)
    requires 0 < m && WRAP % m == 0
    ensures x % WRAP % m == x % m
  {
    var q, k, r := x / WRAP, WRAP / m, x % WRAP;
    assert x == WRAP * q + r && WRAP == m * k && r == m * (r / m) + r % m;
    assert x == m * (k * q + r / m) + r % m by {
      assert m * (k * q + r / m) == m * (k * q) + m * (r / m);
      assert m * (k * q) == (m * k) * q;
    }
    ModIs(x, m, k * q + r / m, r % m);
  }

  lemma {:induction false} SoleOwner(ws: seq<int>, i: nat, j: nat, c: nat, n: nat)
    requires Nonnegative(ws) && i < |ws| && j < |ws| && Sum(ws) == ws[i] > 0
    ensures Selections(ws, j, c, n) == if i == j then n else 0
  {
    SumToMonotone(ws, 0, i);
    SumToMonotone(ws, i + 1, |ws|);
    if n > 0 {
      SoleOwner(ws, i, j, c, n - 1);
      var s := (c + n - 1) % WRAP % Sum(ws);
      assert Hits(ws, i, s);
      if i != j && Hits(ws, j, s) { HitsUnique(ws, i, j, s); }
    }
  }

  lemma SoleOwnerWeights(ws: seq<int>, i: nat, j: nat)
    requires Nonnegative(ws) && i < |ws| && j < |ws| && i != j && Sum(ws) == ws[i]
    ensures ws[j] == 0
  {
    var a, b := if i < j then i else j, if i < j then j else i;
    SumToMonotone(ws, 0, a);
    SumToMonotone(ws, a + 1, b);
    SumToMonotone(ws, b + 1, |ws|);
  }

  /** The part of a crossing window on either side of the wrap restarts the cycle. */
  lemma CrossingPosition(W: nat, r: nat, j: nat)
    requires 0 < W < WRAP && r == WRAP % W && j < W
    ensures (WRAP - r + j) % WRAP % W == if j < r then j else j - r
  {
    var q := WRAP / W;
    assert WRAP == W * q + r;
    if j < r {
      assert (WRAP - r + j) % WRAP == WRAP - r + j;
      ModIs(WRAP - r + j, W, q, j);
    } else {
      assert (WRAP - r + j) % WRAP == j - r;
      ModIs(j - r, W, 0, j - r);
    }
  }

  lemma {:induction false} CrossingWindow(ws: seq<int>, i: nat, r: nat, n: nat)
    requires i < |ws| && 0 < Sum(ws) < WRAP && r == WRAP % Sum(ws) && n <= Sum(ws)
    ensures Selections(ws, i, WRAP - r, n) ==
            if n <= r then Share(ws, i, n) else Share(ws, i, r) + Share(ws, i, n - r)
  {
    if n > 0 {
      CrossingWindow(ws, i, r, n - 1);
      CrossingPosition(Sum(ws), r, n - 1);
    }
  }

  lemma {:induction false} FirstPositive(ws: seq<int>, n: nat) returns (i: nat)
    requires Nonnegative(ws) && n <= |ws| && SumTo(ws, n) > 0
    ensures i < n && SumTo(ws, i) == 0 && ws[i] > 0
  {
    SumToMonotone(ws, 0, n - 1);
    if SumTo(ws, n - 1) > 0 { i := FirstPositive(ws, n - 1); } else { i := n - 1; }
  }

  /**
    Windows that cross the 32-bit wrap are exact too if and only if the total weight divides
    the counter's range or a single backend holds all the weight.
  */
  lemma AcrossTheWrapIff(ws: seq<int>)
    requires Nonnegative(ws) && 0 < Sum(ws) < WRAP
    ensures AlwaysProportional(ws) <==>
            WRAP % Sum(ws) == 0 || exists i :: 0 <= i < |ws| && ws[i] == Sum(ws)
  {
    var W, r := Sum(ws), WRAP % Sum(ws);
    if r == 0 {
      forall c, i | 0 <= c < WRAP && 0 <= i < |ws| ensures Selections(ws, i, c, W) == ws[i] {
        DivisorWrap(ws, i, c, W);
        FullTurn(ws, i, c);
      }
    } else if i :| 0 <= i < |ws| && ws[i] == W {
      forall c, j | 0 <= c < WRAP && 0 <= j < |ws| ensures Selections(ws, j, c, W) == ws[j] {
        SoleOwner(ws, i, j, c, W);
        if i != j { SoleOwnerWeights(ws, i, j); }
      }
    } else {
      var i := FirstPositive(ws, |ws|);
      SumToMonotone(ws, i + 1, |ws|);
      CrossingWindow(ws, i, r, W);
      ShareIsClamped(ws, i, r);
      ShareIsClamped(ws, i, W - r);
      assert Selections(ws, i, WRAP - r, W) != ws[i];
    }
  }
}
