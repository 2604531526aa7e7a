/**
  Consistent hashing with bounded loads (internal/balancer/consistenthash.go): the ring of
  virtual nodes, what changes when membership changes, and the walk to a backend under capacity.
  Hash functions are parameters; the load factor is the fraction num / den.
*/
module ConsistentHashing {
  import opened Backends
  import opened Options

  // ---------------------------------------------------------------------------
  // Ownership of ring points
  // ---------------------------------------------------------------------------

  type Owners<T> = map<nat, T>

  /** The first k virtual nodes of b take the points nobody holds yet. */
  function Claim<T>(m: Owners<T>, b: T, hash: (T, nat) -> nat, k: nat): Owners<T> {
    if k == 0 then m
    else
      var m' := Claim(m, b, hash, k - 1);
      if hash(b, k - 1) in m' then m' else m'[hash(b, k - 1) := b]
  }

  function OwnersOf<T>(bs: seq<T>, replicas: nat, hash: (T, nat) -> nat, n: nat): Owners<T>
    requires n <= |bs|
  {
    if n == 0 then map[] else Claim(OwnersOf(bs, replicas, hash, n - 1), bs[n - 1], hash, replicas)
  }

  /** b has a virtual node at point p. */
  ghost predicate Wants<T>(b: T, replicas: nat, hash: (T, nat) -> nat, p: nat) {
    exists k :: 0 <= k < replicas && hash(b, k) == p
  }

  /** Reference: the owner of p is the first backend in the list with a virtual node there. */
  ghost predicate IsFirstClaimant<T>(bs: seq<T>, replicas: nat, hash: (T, nat) -> nat, p: nat, i: nat) {
    i < |bs| && Wants(bs[i], replicas, hash, p) && forall j :: 0 <= j < i ==> !Wants(bs[j], replicas, hash, p)
  }

  lemma {:induction false} ClaimAt<T>(m: Owners<T>, b: T, hash: (T, nat) -> nat, k: nat, p: nat)
    ensures p in Claim(m, b, hash, k) <==> p in m || Wants(b, k, hash, p)
    ensures p in m ==> Claim(m, b, hash, k)[p] == m[p]
    ensures p !in m && Wants(b, k, hash, p) ==> Claim(m, b, hash, k)[p] == b
  {
    if k > 0 {
      ClaimAt(m, b, hash, k - 1, p);
      if Wants(b, k, hash, p) && !Wants(b, k - 1, hash, p) { assert hash(b, k - 1) == p; }
      if Wants(b, k - 1, hash, p) {
        var i :| 0 <= i < k - 1 && hash(b, i) == p;
        assert 0 <= i < k;
      }
      if hash(b, k - 1) == p { assert Wants(b, k, hash, p); }
    }
  }

  lemma {:induction false} OwnerIsFirstClaimant<T>(bs: seq<T>, replicas: nat, hash: (T, nat) -> nat, n: nat, p: nat)
    requires n <= |bs|
    ensures p in OwnersOf(bs, replicas, hash, n) <==>
            exists i :: 0 <= i < n && IsFirstClaimant(bs, replicas, hash, p, i)
    ensures forall i :: 0 <= i < n && IsFirstClaimant(bs, replicas, hash, p, i) ==>
              p in OwnersOf(bs, replicas, hash, n) && OwnersOf(bs, replicas, hash, n)[p] == bs[i]
    ensures p !in OwnersOf(bs, replicas, hash, n) ==> forall i :: 0 <= i < n ==> !Wants(bs[i], replicas, hash, p)
  {
    if n > 0 {
      OwnerIsFirstClaimant(bs, replicas, hash, n - 1, p);
      ClaimAt(OwnersOf(bs, replicas, hash, n - 1), bs[n - 1], hash, replicas, p);
      if p !in OwnersOf(bs, replicas, hash, n - 1) && Wants(bs[n - 1], replicas, hash, p) {
        assert IsFirstClaimant(bs, replicas, hash, p, n - 1);
      }
    }
  }

  /** p is the first point at or after h, or the lowest point when there is none. */
  ghost predicate IsSuccessor(points: set<nat>, h: nat, p: nat) {
    && p in points
    && (h <= p || forall q :: q in points ==> q < h)
    && forall q :: q in points && (h <= p ==> h <= q) ==> p <= q
  }

  lemma SuccessorIsUnique(points: set<nat>, h: nat, p: nat, q: nat)
    requires IsSuccessor(points, h, p) && IsSuccessor(points, h, q)
    ensures p == q
  {}

  lemma SuccessorSurvives(points: set<nat>, fewer: set<nat>, h: nat, p: nat)
    requires IsSuccessor(points, h, p) && fewer <= points && p in fewer
    ensures IsSuccessor(fewer, h, p)
  {}

  /** No point appears when b leaves. */
  lemma NoNewPoints<T>(pre: seq<T>, b: T, post: seq<T>, replicas: nat, hash: (T, nat) -> nat, p: nat)
    requires p in OwnersOf(pre + post, replicas, hash, |pre + post|)
    ensures p in OwnersOf(pre + [b] + post, replicas, hash, |pre + [b] + post|)
  {
    var w, wo := pre + [b] + post, pre + post;
    OwnerIsFirstClaimant(wo, replicas, hash, |wo|, p);
    OwnerIsFirstClaimant(w, replicas, hash, |w|, p);
    var i :| 0 <= i < |wo| && IsFirstClaimant(wo, replicas, hash, p, i);
    assert w[if i < |pre| then i else i + 1] == wo[i];
  }

  lemma FirstClaimantStays<T>(pre: seq<T>, b: T, post: seq<T>, replicas: nat, hash: (T, nat) -> nat, p: nat, i: nat)
    requires IsFirstClaimant(pre + [b] + post, replicas, hash, p, i) && i != |pre|
    ensures IsFirstClaimant(pre + post, replicas, hash, p, if i < |pre| then i else i - 1)
    ensures (pre + post)[if i < |pre| then i else i - 1] == (pre + [b] + post)[i]
  {
    var w, wo := pre + [b] + post, pre + post;
    var i' := if i < |pre| then i else i - 1;
    forall j | 0 <= j < i' ensures !Wants(wo[j], replicas, hash, p) {
      assert wo[j] == w[if j < |pre| then j else j + 1];
    }
  }

  /** Points of other backends keep their owner when b leaves. */
  lemma OthersKeepTheirPoints<T>(pre: seq<T>, b: T, post: seq<T>, replicas: nat, hash: (T, nat) -> nat, p: nat)
    requires p in OwnersOf(pre + [b] + post, replicas, hash, |pre + [b] + post|)
    requires OwnersOf(pre + [b] + post, replicas, hash, |pre + [b] + post|)[p] != b
    ensures p in OwnersOf(pre + post, replicas, hash, |pre + post|)
    ensures OwnersOf(pre + post, replicas, hash, |pre + post|)[p] ==
            OwnersOf(pre + [b] + post, replicas, hash, |pre + [b] + post|)[p]
  {
    var w, wo := pre + [b] + post, pre + post;
    OwnerIsFirstClaimant(w, replicas, hash, |w|, p);
    var i :| 0 <= i < |w| && IsFirstClaimant(w, replicas, hash, p, i);
    FirstClaimantStays(pre, b, post, replicas, hash, p, i);
    OwnerIsFirstClaimant(wo, replicas, hash, |wo|, p);
  }

  /**
    Minimal disruption, hash collisions included: when b leaves (or, read the other way, joins)
    at any place in the list, a key changes hands only if b owned it (or comes to own it).
  */
  lemma MinimalDisruption<T>(pre: seq<T>, b: T, post: seq<T>, replicas: nat, hash: (T, nat) -> nat, h: nat, p: nat)
    requires IsSuccessor(OwnersOf(pre + [b] + post, replicas, hash, |pre + [b] + post|).Keys, h, p)
    requires OwnersOf(pre + [b] + post, replicas, hash, |pre + [b] + post|)[p] != b
    ensures var M' := OwnersOf(pre + post, replicas, hash, |pre + post|);
            && IsSuccessor(M'.Keys, h, p)
            && M'[p] == OwnersOf(pre + [b] + post, replicas, hash, |pre + [b] + post|)[p]
  {
    var w, wo := pre + [b] + post, pre + post;
    var M, M' := OwnersOf(w, replicas, hash, |w|), OwnersOf(wo, replicas, hash, |wo|);
    OthersKeepTheirPoints(pre, b, post, replicas, hash, p);
    forall q | q in M'.Keys ensures q in M.Keys { NoNewPoints(pre, b, post, replicas, hash, q); }
    SuccessorSurvives(M.Keys, M'.Keys, h, p);
  }

  // ---------------------------------------------------------------------------
  // Building and searching the ring
  // ---------------------------------------------------------------------------

  ghost predicate StrictlySorted(ring: seq<nat>) {
    forall i, j :: 0 <= i < j < |ring| ==> ring[i] < ring[j]
  }

  ghost predicate Lists<T>(ring: seq<nat>, m: Owners<T>) {
    forall p :: p in ring <==> p in m
  }

  /** Insertion at the place that keeps the ring sorted. */
  method Insert(ring: seq<nat>, p: nat) returns (r: seq<nat>)
    requires StrictlySorted(ring) && p !in ring
    ensures StrictlySorted(r) && forall q :: q in r <==> q in ring || q == p
  {
    var i := Search(ring, p);
    r := ring[..i] + [p] + ring[i..];
    assert ring == ring[..i] + ring[i..];
  }

  method Sort(points: seq<nat>) returns (ring: seq<nat>)
    requires Distinct(points)
    ensures StrictlySorted(ring) && forall q :: q in ring <==> q in points
  {
    ring := [];
    for i := 0 to |points|
      invariant StrictlySorted(ring) && forall q :: q in ring <==> q in points[..i]
    {
      assert points[i] !in points[..i];
      ring := Insert(ring, points[i]);
      assert points[..i + 1] == points[..i] + [points[i]];
    }
    assert points[..|points|] == points;
  }

  /** rebuildLocked: strictly sorted points, exactly those of the owner table. */
  method Rebuild<T>(bs: seq<T>, replicas: nat, hash: (T, nat) -> nat) returns (ring: seq<nat>, m: Owners<T>)
    ensures m == OwnersOf(bs, replicas, hash, |bs|)
    ensures StrictlySorted(ring) && Lists(ring, m)
  {
    var points := [];
    m := map[];
    for n := 0 to |bs|
      invariant m == OwnersOf(bs, replicas, hash, n) && Distinct(points) && Lists(points, m)
    {
      ghost var before := m;
      for k := 0 to replicas
        invariant m == Claim(before, bs[n], hash, k) && Distinct(points) && Lists(points, m)
      {
        var h := hash(bs[n], k);
        if h in m { continue; }
        m := m[h := bs[n]];
        points := points + [h];
      }
    }
    ring := Sort(points);
  }

  /** sort.Search: the first position whose point is at or after h. */
  method Search(ring: seq<nat>, h: nat) returns (i: nat)
    requires StrictlySorted(ring)
    ensures i <= |ring|
    ensures forall k :: 0 <= k < i ==> ring[k] < h
    ensures forall k :: i <= k < |ring| ==> h <= ring[k]
  {
    var j := |ring|;
    i := 0;
    while i < j
      invariant i <= j <= |ring|
      invariant forall k :: 0 <= k < i ==> ring[k] < h
      invariant forall k :: j <= k < |ring| ==> h <= ring[k]
    {
      var mid := i + (j - i) / 2;
      if ring[mid] < h { i := mid + 1; } else { j := mid; }
    }
  }

  /** The walk starts at the cyclic successor of the key. */
  method Start<T>(ring: seq<nat>, ghost m: Owners<T>, h: nat) returns (s: nat)
    requires ring != [] && StrictlySorted(ring) && Lists(ring, m)
    ensures s < |ring| && IsSuccessor(m.Keys, h, ring[s])
  {
    s := Search(ring, h);
    if s == |ring| { s := 0; }
    forall q | q in m.Keys && (h <= ring[s] ==> h <= q) ensures ring[s] <= q {
      var k :| 0 <= k < |ring| && ring[k] == q;
    }
    assert ring[s] in ring;
  }

  // ---------------------------------------------------------------------------
  // The bounded-load walk
  // ---------------------------------------------------------------------------

  /** Int of factor times the average load, counting the new connection, plus one. */
  function Capacity(loads: seq<int>, num: nat, den: nat): int
    requires loads != [] && 0 < den
  {
    num * (1 + Sum(loads)) / (den * |loads|) + 1
  }

  ghost predicate Loads(loads: seq<int>) { forall i :: 0 <= i < |loads| ==> 0 <= loads[i] }

  lemma Overfull(n: nat, total: nat, num: nat, den: nat, cap: int)
    requires 0 < n && 0 < den <= num && cap == num * total / (den * n) + 1
    ensures total < n * cap
  {
    var d := den * n;
    assert num * total == d * (num * total / d) + num * total % d;
    assert num * total < d * cap;
    assert den * total <= num * total;
    assert d * cap == den * (n * cap);
  }

  /** Pigeonhole: with a load factor of at least one some backend is under capacity. */
  lemma SomeoneIsUnderCapacity(loads: seq<int>, num: nat, den: nat) returns (i: nat)
    requires loads != [] && Loads(loads) && 0 < den <= num
    ensures i < |loads| && loads[i] < Capacity(loads, num, den)
  {
    var cap, n := Capacity(loads, num, den), |loads|;
    if forall k :: 0 <= k < n ==> cap <= loads[k] {
      var level := seq(n, k => cap);
      SumOfSame(level, cap);
      SumBounded(level, loads);
      SumBounded(seq(n, k => 0), loads);
      SumOfSame(seq(n, k => 0), 0);
      Overfull(n, 1 + Sum(loads), num, den, cap);
      assert false;
    }
    i :| 0 <= i < n && loads[i] < cap;
  }

  lemma FloorIff(x: int, a: int, d: int)
    requires 0 < d
    ensures x < a / d + 1 <==> x * d <= a
  {
    assert a == d * (a / d) + a % d;
    if x <= a / d { assert x * d <= (a / d) * d; } else { assert (a / d + 1) * d <= x * d; }
  }

  /** Under capacity is: at most the factor times the average load, the new connection counted. */
  lemma UnderCapacityIff(loads: seq<int>, num: nat, den: nat, i: nat)
    requires i < |loads| && 0 < den
    ensures loads[i] < Capacity(loads, num, den) <==> loads[i] * (den * |loads|) <= num * (1 + Sum(loads))
  {
    FloorIff(loads[i], num * (1 + Sum(loads)), den * |loads|);
  }

  /** Position k clockwise from s leads to a healthy backend under capacity. */
  ghost predicate Under<T>(ring: seq<nat>, m: Owners<T>, bs: seq<T>, loads: seq<int>, cap: int, s: nat, k: nat)
    requires ring != [] && Lists(ring, m) && |loads| == |bs|
  {
    exists i :: 0 <= i < |bs| && bs[i] == m[At(ring, s, k)] && loads[i] < cap
  }

  function At(ring: seq<nat>, s: nat, k: nat): (p: nat)
    requires ring != []
    ensures p in ring
  {
    ring[(s + k) % |ring|]
  }

  method Position<T(==)>(bs: seq<T>, b: T) returns (i: int)
    ensures i < |bs| && (0 <= i ==> bs[i] == b) && (i < 0 ==> b !in bs)
  {
    for k := 0 to |bs|
      invariant forall j :: 0 <= j < k ==> bs[j] != b
    {
      if bs[k] == b { return k; }
    }
    return -1;
  }

  /** What the walk from s promises about its pick. */
  ghost predicate Walked<T>(ring: seq<nat>, m: Owners<T>, bs: seq<T>, loads: seq<int>, cap: int, s: nat, pick: T)
    requires ring != [] && Lists(ring, m) && |loads| == |bs|
  {
    if exists k :: 0 <= k < |ring| && Under(ring, m, bs, loads, cap, s, k)
    then exists at :: 0 <= at < |ring| && pick == m[At(ring, s, at)] && Under(ring, m, bs, loads, cap, s, at)
                      && forall k :: 0 <= k < at ==> !Under(ring, m, bs, loads, cap, s, k)
    else pick == m[At(ring, s, 0)]
  }

  /**
    The walk picks the first backend clockwise that is healthy and under capacity, however many
    points it skips as seen; the first owner is the fallback exactly when there is none.
  */
  method Walk<T(==)>(ring: seq<nat>, m: Owners<T>, bs: seq<T>, loads: seq<int>, cap: int, s: nat)
    returns (pick: T, fell: bool)
    requires ring != [] && Lists(ring, m) && |loads| == |bs| && Distinct(bs)
    ensures Walked(ring, m, bs, loads, cap, s, pick) && pick in m.Values
    ensures fell <==> forall k :: 0 <= k < |ring| ==> !Under(ring, m, bs, loads, cap, s, k)
  {
    var seen := new bool[|bs|](_ => false);
    for k := 0 to |ring|
      invariant forall i :: 0 <= i < |bs| && seen[i] ==> cap <= loads[i]
      invariant forall j :: 0 <= j < k ==> !Under(ring, m, bs, loads, cap, s, j)
    {
      var b := m[At(ring, s, k)];
      var i := Position(bs, b);
      if i < 0 || seen[i] { continue; }
      seen[i] := true;
      if loads[i] < cap {
        assert Under(ring, m, bs, loads, cap, s, k);
        return b, false;
      }
    }
    return m[At(ring, s, 0)], true;
  }

  /** Every healthy backend kept at least one of its points. */
  ghost predicate AllOnRing<T>(ring: seq<nat>, m: Owners<T>, bs: seq<T>)
    requires Lists(ring, m)
  {
    forall i :: 0 <= i < |bs| ==> exists j :: 0 <= j < |ring| && m[ring[j]] == bs[i]
  }

  lemma Reaches(ring: seq<nat>, s: nat, j: nat) returns (k: nat)
    requires s < |ring| && j < |ring|
    ensures k < |ring| && At(ring, s, k) == ring[j]
  {
    k := if s <= j then j - s else j + |ring| - s;
    ModIs(s + k, |ring|, if s <= j then 0 else 1, j);
  }

  /** When every healthy backend owns a point, the fallback is unreachable. */
  lemma WalkNeverFalls<T>(ring: seq<nat>, m: Owners<T>, bs: seq<T>, loads: seq<int>, num: nat, den: nat, s: nat)
    requires ring != [] && Lists(ring, m) && |loads| == |bs| > 0 && s < |ring|
    requires Loads(loads) && 0 < den <= num && AllOnRing(ring, m, bs)
    ensures exists k :: 0 <= k < |ring| && Under(ring, m, bs, loads, Capacity(loads, num, den), s, k)
  {
    var i := SomeoneIsUnderCapacity(loads, num, den);
    var j :| 0 <= j < |ring| && m[ring[j]] == bs[i];
    var k := Reaches(ring, s, j);
    assert Under(ring, m, bs, loads, Capacity(loads, num, den), s, k);
  }

  // ---------------------------------------------------------------------------
  // The balancer
  // ---------------------------------------------------------------------------

  function Conns(bs: seq<Backend>): (ls: seq<int>)
    reads bs
    ensures |ls| == |bs| && forall i {:trigger ls[i]} :: 0 <= i < |bs| ==> ls[i] == bs[i].activeConns
  {
    seq(|bs|, i requires 0 <= i < |bs| reads bs => bs[i].activeConns)
  }

  /** The membership signature: the URLs of the list in sorted order, hence as a multiset. */
  function Signature(bs: seq<Backend>): multiset<string> {
    multiset(seq(|bs|, i requires 0 <= i < |bs| => bs[i].url))
  }

  function Urls(bs: seq<Backend>): seq<string> { seq(|bs|, i requires 0 <= i < |bs| => bs[i].url) }

  /** The pick is what the walk from the cyclic successor of h finds. */
  ghost predicate Chosen<T>(ring: seq<nat>, m: Owners<T>, bs: seq<T>, loads: seq<int>, cap: int, h: nat, pick: T)
    requires ring != [] && Lists(ring, m) && |loads| == |bs|
  {
    exists s :: 0 <= s < |ring| && IsSuccessor(m.Keys, h, ring[s]) && Walked(ring, m, bs, loads, cap, s, pick)
  }

  method Choose<T(==)>(ring: seq<nat>, m: Owners<T>, bs: seq<T>, loads: seq<int>, num: nat, den: nat, h: nat)
    returns (pick: T)
    requires ring != [] && StrictlySorted(ring) && Lists(ring, m) && |loads| == |bs| > 0 && Distinct(bs) && 0 < den
    ensures Chosen(ring, m, bs, loads, Capacity(loads, num, den), h, pick) && pick in m.Values
  {
    var s := Start(ring, m, h);
    var fell;
    pick, fell := Walk(ring, m, bs, loads, Capacity(loads, num, den), s);
  }

  lemma {:induction false} OwnersAreMembers<T>(bs: seq<T>, replicas: nat, hash: (T, nat) -> nat, n: nat)
    requires n <= |bs|
    ensures forall b :: b in OwnersOf(bs, replicas, hash, n).Values ==> b in bs
  {
    forall p | p in OwnersOf(bs, replicas, hash, n) ensures OwnersOf(bs, replicas, hash, n)[p] in bs {
      OwnerIsFirstClaimant(bs, replicas, hash, n, p);
      var i :| 0 <= i < n && IsFirstClaimant(bs, replicas, hash, p, i);
    }
  }

  /**
    Bounded load: on a ring where every healthy backend owns a point, what the walk from s picks is
    healthy and its load after the reservation is at most the capacity.
  */
  lemma PickIsWithinCapacity<T>(ring: seq<nat>, m: Owners<T>, bs: seq<T>, loads: seq<int>, num: nat, den: nat,
                                s: nat, pick: T)
    returns (i: nat)
    requires ring != [] && Lists(ring, m) && |loads| == |bs| > 0 && Loads(loads) && 0 < den <= num && s < |ring|
    requires AllOnRing(ring, m, bs) && Walked(ring, m, bs, loads, Capacity(loads, num, den), s, pick)
    ensures i < |bs| && bs[i] == pick && loads[i] + 1 <= num * (1 + Sum(loads)) / (den * |bs|) + 1
  {
    var cap := Capacity(loads, num, den);
    WalkNeverFalls(ring, m, bs, loads, num, den, s);
    var at :| 0 <= at < |ring| && pick == m[At(ring, s, at)] && Under(ring, m, bs, loads, cap, s, at);
    i :| 0 <= i < |bs| && bs[i] == m[At(ring, s, at)] && loads[i] < cap;
  }

  /** A key stays with the owner of its point if and only if that one is healthy and not above the allowed load. */
  lemma StaysHomeIff<T>(ring: seq<nat>, m: Owners<T>, bs: seq<T>, loads: seq<int>, num: nat, den: nat, s: nat, pick: T,
                        i: nat)
    requires ring != [] && Lists(ring, m) && |loads| == |bs| > 0 && Loads(loads) && 0 < den <= num && s < |ring|
    requires AllOnRing(ring, m, bs) && Distinct(bs) && i < |bs| && bs[i] == m[ring[s]]
    requires Walked(ring, m, bs, loads, Capacity(loads, num, den), s, pick)
    ensures pick == m[ring[s]] <==> loads[i] * (den * |bs|) <= num * (1 + Sum(loads))
  {
    var cap := Capacity(loads, num, den);
    UnderCapacityIff(loads, num, den, i);
    assert At(ring, s, 0) == ring[s] by { ModIs(s, |ring|, 0, s); }
    if loads[i] < cap {
      assert Under(ring, m, bs, loads, cap, s, 0);
    } else {
      var j := PickIsWithinCapacity(ring, m, bs, loads, num, den, s, pick);
    }
  }

  /**
    When the ring was built from other backends than are healthy now, the pick is outside the healthy
    list exactly if the owner of the point the walk starts at is, and no healthy owner is under capacity.
  */
  lemma PicksOutsideIff<T>(ring: seq<nat>, m: Owners<T>, bs: seq<T>, loads: seq<int>, cap: int, s: nat, pick: T)
    requires ring != [] && Lists(ring, m) && |loads| == |bs| && s < |ring|
    requires Walked(ring, m, bs, loads, cap, s, pick)
    ensures pick !in bs <==>
            m[ring[s]] !in bs && forall i :: 0 <= i < |bs| && bs[i] in m.Values ==> cap <= loads[i]
  {
    AnyUnderIff(ring, m, bs, loads, cap, s);
    assert At(ring, s, 0) == ring[s] by { ModIs(s, |ring|, 0, s); }
  }

  lemma AnyUnderIff<T>(ring: seq<nat>, m: Owners<T>, bs: seq<T>, loads: seq<int>, cap: int, s: nat)
    requires ring != [] && Lists(ring, m) && |loads| == |bs| && s < |ring|
    ensures (exists k :: 0 <= k < |ring| && Under(ring, m, bs, loads, cap, s, k)) <==>
            exists i :: 0 <= i < |bs| && bs[i] in m.Values && loads[i] < cap
  {
    if i :| 0 <= i < |bs| && bs[i] in m.Values && loads[i] < cap {
      var p :| p in m && m[p] == bs[i];
      var j :| 0 <= j < |ring| && ring[j] == p;
      var k := Reaches(ring, s, j);
      assert Under(ring, m, bs, loads, cap, s, k);
    }
  }

  class ConsistentHash {
    const replicas: nat
    const num: nat
    const den: nat
    const node: (string, nat) -> nat
    var ring: seq<nat>
    var owners: Owners<Backend>
    var ringKey: multiset<string>
    /** The list the ring was last built from. */
    ghost var built: seq<Backend>

    constructor (replicas: int, num: nat, den: nat, node: (string, nat) -> nat)
      requires 0 < den
      ensures Valid() && built == [] && this.node == node
      ensures this.replicas == if replicas <= 0 then 100 else replicas
      ensures if num <= den then this.num == 5 && this.den == 4 else this.num == num && this.den == den
    {
      this.replicas := if replicas <= 0 then 100 else replicas;
      this.num := if num <= den then 5 else num;
      this.den := if num <= den then 4 else den;
      this.node := node;
      ring, owners, ringKey, built := [], map[], multiset{}, [];
    }

    function Hash(b: Backend, k: nat): nat { node(b.url, k) }

    ghost predicate Valid() reads this {
      && 0 < replicas && 0 < den < num
      && owners == OwnersOf(built, replicas, Hash, |built|)
      && StrictlySorted(ring) && Lists(ring, owners)
      && ringKey == Signature(built)
    }

    ghost function Limit(healthy: seq<Backend>): int
      requires healthy != [] && 0 < den
      reads healthy
    {
      Capacity(Conns(healthy), num, den)
    }

    /** The list a call on `healthy` finds on the ring. */
    ghost function BuiltFor(healthy: seq<Backend>): seq<Backend> reads this {
      if Signature(healthy) != ringKey || ring == [] then healthy else built
    }

    method Refresh(healthy: seq<Backend>)
      requires Valid() && healthy != []
      modifies this
      ensures Valid() && ring != [] && built == old(BuiltFor(healthy))
      ensures multiset(Urls(built)) == multiset(Urls(healthy))
    {
      var sig := Signature(healthy);
      if sig != ringKey || ring == [] {
        ring, owners := Rebuild(healthy, replicas, Hash);
        ringKey, built := sig, healthy;
        RingNotEmpty(built);
      }
    }

    /** NextForKey; h is the hash of the routing key. */
    method NextForKey(healthy: seq<Backend>, h: nat) returns (r: Option<Backend>)
      requires Valid() && Distinct(healthy)
      modifies this, (set b | b in healthy + built)`activeConns
      ensures Valid()
      ensures healthy == [] ==> r == None && ring == old(ring) && built == old(built)
      ensures healthy != [] ==>
                && ring != [] && built == old(BuiltFor(healthy)) && multiset(Urls(built)) == multiset(Urls(healthy))
                && r.Some? && Chosen(ring, owners, healthy, old(Conns(healthy)), old(Limit(healthy)), h, r.value)
                && r.value in healthy + old(built) && Reserved(healthy, r.value) && Reserved(old(built), r.value)
                && (old(BuiltFor(healthy)) == healthy ==> r.value in healthy)
    {
      if healthy == [] { return None; }
      var loads := Conns(healthy);
      Refresh(healthy);
      var pick := Choose(ring, owners, healthy, loads, num, den, h);
      assert pick in built by { OwnersAreMembers(built, replicas, Hash, |built|); }
      pick.IncrConn();
      return Some(pick);
    }

    lemma RingNotEmpty(bs: seq<Backend>)
      requires Valid() && built == bs && bs != []
      ensures ring != []
    {
      var p := Hash(bs[0], 0);
      OwnerIsFirstClaimant(bs, replicas, Hash, |bs|, p);
      assert Wants(bs[0], replicas, Hash, p);
    }
  }
}
