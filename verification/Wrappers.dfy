/**
  The narrowing wrappers of internal/balancer/wrappers.go over any base algorithm that returns a
  healthy member: PriorityTiers, ZoneAware and SlowStart, stacked in any order. Connection counts
  and the set of healthy backends are values here; whether slow start lets a pick through is
  arbitrary, so every ramp, clock and draw is covered. A selection with a routing key (NextForKey)
  carries the key's hash, one without (Next) carries None.
*/
module Wrappers {
  import opened Backends
  import opened Options

  // ---------------------------------------------------------------------------
  // Filters
  // ---------------------------------------------------------------------------

  /** The first n members of a pool with a given tier, in order. */
  function OfTier(pool: seq<Backend>, tier: int, n: nat): (r: seq<Backend>)
    requires n <= |pool|
    ensures forall i :: 0 <= i < |r| ==> r[i] in pool && r[i].tier == tier
    ensures forall i :: 0 <= i < n && pool[i].tier == tier ==> pool[i] in r
    ensures Distinct(pool) ==> Distinct(r) && forall i :: n <= i < |pool| ==> pool[i] !in r
  {
    if n == 0 then []
    else if pool[n - 1].tier == tier then OfTier(pool, tier, n - 1) + [pool[n - 1]]
    else OfTier(pool, tier, n - 1)
  }

  function MinTier(pool: seq<Backend>, n: nat): (t: int)
    requires 0 < n <= |pool|
    ensures forall i :: 0 <= i < n ==> t <= pool[i].tier
    ensures exists i :: 0 <= i < n && t == pool[i].tier
  {
    if n == 1 then pool[0].tier
    else
      var t := MinTier(pool, n - 1);
      if pool[n - 1].tier < t then pool[n - 1].tier else t
  }

  function Lowest(pool: seq<Backend>): seq<Backend> {
    if pool == [] then [] else OfTier(pool, MinTier(pool, |pool|), |pool|)
  }

  function OfZone(pool: seq<Backend>, zone: string, n: nat): (r: seq<Backend>)
    requires n <= |pool|
    ensures forall i :: 0 <= i < |r| ==> r[i] in pool && r[i].zone == zone
    ensures forall i :: 0 <= i < n && pool[i].zone == zone ==> pool[i] in r
    ensures Distinct(pool) ==> Distinct(r) && forall i :: n <= i < |pool| ==> pool[i] !in r
  {
    if n == 0 then []
    else if pool[n - 1].zone == zone then OfZone(pool, zone, n - 1) + [pool[n - 1]]
    else OfZone(pool, zone, n - 1)
  }

  function Near(pool: seq<Backend>, zone: string, prefer: bool): seq<Backend> {
    if !prefer || zone == "" then pool
    else
      var same := OfZone(pool, zone, |pool|);
      if same != [] then same else pool
  }

  method LeastTier(pool: seq<Backend>) returns (minTier: int)
    requires pool != []
    ensures minTier == MinTier(pool, |pool|)
  {
    minTier := pool[0].tier;
    for i := 0 to |pool|
      invariant minTier == if i == 0 then pool[0].tier else MinTier(pool, i)
    {
      if pool[i].tier < minTier { minTier := pool[i].tier; }
    }
  }

  method EligibleByTier(pool: seq<Backend>) returns (r: seq<Backend>)
    ensures r == Lowest(pool)
  {
    if pool == [] { return []; }
    var minTier := LeastTier(pool);
    r := [];
    for i := 0 to |pool|
      invariant r == OfTier(pool, minTier, i)
    {
      if pool[i].tier == minTier { r := r + [pool[i]]; }
    }
  }

  method EligibleByZone(pool: seq<Backend>, zone: string, prefer: bool) returns (r: seq<Backend>)
    ensures r == Near(pool, zone, prefer)
  {
    if !prefer || zone == "" { return pool; }
    r := [];
    for i := 0 to |pool|
      invariant r == OfZone(pool, zone, i)
    {
      if pool[i].zone == zone { r := r + [pool[i]]; }
    }
    if |r| == 0 { r := pool; }
  }

  // ---------------------------------------------------------------------------
  // Stacks
  // ---------------------------------------------------------------------------

  /** A base balancer says whether it selects by key; wrappers stack above it. */
  datatype Balancer =
    | Base(backends: seq<Backend>, keyed: bool)
    | Tiers(inner: Balancer)
    | Zone(inner: Balancer, zone: string, prefer: bool)
    | SlowStart(inner: Balancer)

  function All(b: Balancer): seq<Backend> { if b.Base? then b.backends else All(b.inner) }

  /** The first n backends that are up, in order. */
  function UpTo(bs: seq<Backend>, up: set<Backend>, n: nat): (r: seq<Backend>)
    requires n <= |bs|
    ensures forall i :: 0 <= i < |r| ==> r[i] in bs && r[i] in up
    ensures forall i :: 0 <= i < n && bs[i] in up ==> bs[i] in r
    ensures Distinct(bs) ==> Distinct(r) && forall i :: n <= i < |bs| ==> bs[i] !in r
  {
    if n == 0 then []
    else if bs[n - 1] in up then UpTo(bs, up, n - 1) + [bs[n - 1]]
    else UpTo(bs, up, n - 1)
  }

  /** All three filters keep the order of the list. */
  lemma {:induction false} FiltersInOrder(bs: seq<Backend>, up: set<Backend>, tier: int, zone: string, m: nat, n: nat)
    requires m <= n <= |bs|
    ensures UpTo(bs, up, m) <= UpTo(bs, up, n)
    ensures OfTier(bs, tier, m) <= OfTier(bs, tier, n)
    ensures OfZone(bs, zone, m) <= OfZone(bs, zone, n)
  {
    if m < n { FiltersInOrder(bs, up, tier, zone, m, n - 1); }
  }

  /** GetHealthy of any stack is that of its base. */
  function Pool(b: Balancer, up: set<Backend>): seq<Backend> { UpTo(All(b), up, |All(b)|) }

  /** Reference: the filters of a stack applied to a pool, the outermost first. */
  function Narrow(b: Balancer, pool: seq<Backend>): seq<Backend> {
    match b
    case Base(_, _) => pool
    case Tiers(inner) => Narrow(inner, Lowest(pool))
    case Zone(inner, zone, prefer) => Narrow(inner, Near(pool, zone, prefer))
    case SlowStart(inner) => Narrow(inner, pool)
  }

  ghost predicate SameElements(a: seq<Backend>, b: seq<Backend>) {
    (forall i :: 0 <= i < |a| ==> a[i] in b) && (forall i :: 0 <= i < |b| ==> b[i] in a)
  }

  lemma LowestSame(a: seq<Backend>, b: seq<Backend>)
    requires SameElements(a, b)
    ensures SameElements(Lowest(a), Lowest(b))
  {
    assert (a != [] ==> a[0] in b) && (b != [] ==> b[0] in a);
    if a != [] {
      MinTierSame(a, b);
      MinTierSame(b, a);
      var t := MinTier(a, |a|);
      OfTierSame(a, b, t);
      OfTierSame(b, a, t);
    }
  }

  lemma MinTierSame(a: seq<Backend>, b: seq<Backend>)
    requires a != [] && b != [] && forall i :: 0 <= i < |a| ==> a[i] in b
    ensures MinTier(b, |b|) <= MinTier(a, |a|)
  {
    var i :| 0 <= i < |a| && MinTier(a, |a|) == a[i].tier;
    var j :| 0 <= j < |b| && b[j] == a[i];
  }

  lemma OfTierSame(a: seq<Backend>, b: seq<Backend>, t: int)
    requires forall i :: 0 <= i < |a| ==> a[i] in b
    ensures forall i :: 0 <= i < |OfTier(a, t, |a|)| ==> OfTier(a, t, |a|)[i] in OfTier(b, t, |b|)
  {
    var ra := OfTier(a, t, |a|);
    forall i | 0 <= i < |ra| ensures ra[i] in OfTier(b, t, |b|) {
      var k :| 0 <= k < |a| && a[k] == ra[i];
      var j :| 0 <= j < |b| && b[j] == a[k];
    }
  }

  lemma NearSame(a: seq<Backend>, b: seq<Backend>, zone: string, prefer: bool)
    requires SameElements(a, b)
    ensures SameElements(Near(a, zone, prefer), Near(b, zone, prefer))
  {
    var za, zb := OfZone(a, zone, |a|), OfZone(b, zone, |b|);
    if za != [] { assert za[0] in a && za[0] in b; }
    if zb != [] { assert zb[0] in b && zb[0] in a; }
  }

  /** Only the members of a pool matter to the filters, not their order. */
  lemma {:induction false} NarrowSame(s: Balancer, a: seq<Backend>, b: seq<Backend>)
    requires SameElements(a, b)
    ensures SameElements(Narrow(s, a), Narrow(s, b))
  {
    match s
    case Base(_, _) =>
    case Tiers(inner) =>
      LowestSame(a, b);
      NarrowSame(inner, Lowest(a), Lowest(b));
    case Zone(inner, zone, prefer) =>
      NearSame(a, b, zone, prefer);
      NarrowSame(inner, Near(a, zone, prefer), Near(b, zone, prefer));
    case SlowStart(inner) => NarrowSame(inner, a, b);
  }

  /** Narrowing never empties a pool and never leaves it. */
  lemma {:induction false} NarrowWithin(s: Balancer, pool: seq<Backend>)
    ensures pool == [] <==> Narrow(s, pool) == []
    ensures forall i :: 0 <= i < |Narrow(s, pool)| ==> Narrow(s, pool)[i] in pool
  {
    match s
    case Base(_, _) =>
    case Tiers(inner) => NarrowWithin(inner, Lowest(pool));
    case Zone(inner, zone, prefer) => NarrowWithin(inner, Near(pool, zone, prefer));
    case SlowStart(inner) => NarrowWithin(inner, pool);
  }

  // ---------------------------------------------------------------------------
  // Comparing sets
  // ---------------------------------------------------------------------------

  /** sameSet, on lists without repetition, decides whether two lists have the same members. */
  method SameSet(a: seq<Backend>, b: seq<Backend>) returns (same: bool)
    requires Distinct(a) && Distinct(b)
    ensures same <==> SameElements(a, b)
  {
    if |a| != |b| {
      if SameElements(a, b) { SameSize(a, b); assert false; }
      return false;
    }
    var seen: set<Backend> := {};
    for i := 0 to |a|
      invariant seen == set x | x in a[..i]
    {
      assert a[..i + 1] == a[..i] + [a[i]];
      seen := seen + {a[i]};
    }
    assert a[..|a|] == a;
    for i := 0 to |b|
      invariant forall j :: 0 <= j < i ==> b[j] in a
    {
      if b[i] !in seen { return false; }
    }
    Covers(b, a);
    return true;
  }

  function Members<T>(s: seq<T>, n: nat): set<T>
    requires n <= |s|
  {
    if n == 0 then {} else Members(s, n - 1) + {s[n - 1]}
  }

  lemma {:induction false} MembersAre<T>(s: seq<T>, n: nat)
    requires Distinct(s) && n <= |s|
    ensures forall x :: x in Members(s, n) ==> x in s
    ensures forall i :: 0 <= i < n ==> s[i] in Members(s, n)
    ensures forall i :: n <= i < |s| ==> s[i] !in Members(s, n)
  {
    if n > 0 { MembersAre(s, n - 1); }
  }

  lemma {:induction false} MemberCount<T>(s: seq<T>, n: nat)
    requires Distinct(s) && n <= |s|
    ensures |Members(s, n)| == n
  {
    if n > 0 {
      MemberCount(s, n - 1);
      MembersAre(s, n - 1);
    }
  }

  lemma SameSize(a: seq<Backend>, b: seq<Backend>)
    requires Distinct(a) && Distinct(b) && SameElements(a, b)
    ensures |a| == |b|
  {
    MemberCount(a, |a|);
    MemberCount(b, |b|);
    MembersAre(a, |a|);
    MembersAre(b, |b|);
    var A, B := Members(a, |a|), Members(b, |b|);
    forall x ensures x in A <==> x in B {
      if x in A { var i :| 0 <= i < |a| && a[i] == x; assert a[i] in b; }
      if x in B { var i :| 0 <= i < |b| && b[i] == x; assert b[i] in a; }
    }
    assert A == B;
  }

  /** A repetition-free list inside another of the same length covers it. */
  lemma Covers(b: seq<Backend>, a: seq<Backend>)
    requires Distinct(a) && Distinct(b) && |a| == |b| && forall i :: 0 <= i < |b| ==> b[i] in a
    ensures SameElements(a, b)
  {
    MemberCount(a, |a|);
    MemberCount(b, |b|);
    MembersAre(a, |a|);
    MembersAre(b, |b|);
    var A, B := Members(a, |a|), Members(b, |b|);
    forall x | x in B ensures x in A { var i :| 0 <= i < |b| && b[i] == x; assert b[i] in a; }
    assert A == B by {
      if A != B { SubsetSmaller(B, A); }
    }
  }

  lemma SubsetSmaller<T>(a: set<T>, b: set<T>)
    requires a < b
    ensures |a| < |b|
  {
    assert b == a + (b - a) && |b| == |a| + |b - a|;
    assert b - a == {} ==> b == a;
  }

  // ---------------------------------------------------------------------------
  // Selection
  // ---------------------------------------------------------------------------

  type Conns = map<Backend, int>

  function Incr(conns: Conns, x: Backend): Conns
    requires x in conns
  {
    conns[x := conns[x] + 1]
  }

  function Decr(conns: Conns, x: Backend): Conns
    requires x in conns
  {
    conns[x := conns[x] - 1]
  }

  lemma GivenBack(conns: Conns, x: Backend)
    requires x in conns
    ensures Decr(Incr(conns, x), x) == conns
  {}

  /** A member of the narrowed pool reserved exactly once, or an error that reserves nothing. */
  ghost predicate Selected(narrowed: seq<Backend>, conns: Conns, r: Option<Backend>, after: Conns) {
    if narrowed == [] then r == None && after == conns
    else r.Some? && r.value in narrowed && r.value in conns && after == Incr(conns, r.value)
  }

  /** The base algorithm: any healthy member, reserved. */
  method BaseNext(pool: seq<Backend>, conns: Conns) returns (r: Option<Backend>, after: Conns)
    requires forall i :: 0 <= i < |pool| ==> pool[i] in conns
    ensures Selected(pool, conns, r, after)
  {
    if pool == [] { return None, conns; }
    var i :| 0 <= i < |pool|;
    return Some(pool[i]), Incr(conns, pool[i]);
  }

  /** Candidate k has the fewest connections, and fewer than any before it. */
  ghost predicate LeastLoaded(candidates: seq<Backend>, conns: Conns, k: nat)
    requires k < |candidates| && forall i :: 0 <= i < |candidates| ==> candidates[i] in conns
  {
    && (forall i :: 0 <= i < |candidates| ==> conns[candidates[k]] <= conns[candidates[i]])
    && (forall i :: 0 <= i < k ==> conns[candidates[k]] < conns[candidates[i]])
  }

  /** The least loaded candidate, the first among equals. */
  method StatelessPick(candidates: seq<Backend>, conns: Conns) returns (r: Option<Backend>, after: Conns)
    requires forall i :: 0 <= i < |candidates| ==> candidates[i] in conns
    ensures Selected(candidates, conns, r, after)
    ensures candidates != [] ==>
              exists k :: 0 <= k < |candidates| && r == Some(candidates[k]) && LeastLoaded(candidates, conns, k)
  {
    if candidates == [] { return None, conns; }
    var best := 0;
    for i := 1 to |candidates|
      invariant best < i
      invariant forall j :: 0 <= j < i ==> conns[candidates[best]] <= conns[candidates[j]]
      invariant forall j :: 0 <= j < best ==> conns[candidates[best]] < conns[candidates[j]]
    {
      if conns[candidates[i]] < conns[candidates[best]] { best := i; }
    }
    return Some(candidates[best]), Incr(conns, candidates[best]);
  }

  method HashPick(candidates: seq<Backend>, conns: Conns, hash: nat) returns (r: Option<Backend>, after: Conns)
    requires forall i :: 0 <= i < |candidates| ==> candidates[i] in conns
    ensures Selected(candidates, conns, r, after)
    ensures candidates != [] ==> r == Some(candidates[hash % |candidates|])
  {
    if candidates == [] { return None, conns; }
    var x := candidates[hash % |candidates|];
    return Some(x), Incr(conns, x);
  }

  // Filters keep the order of the backend list.

  function SetOf(bs: seq<Backend>): set<Backend> { set x | x in bs }

  function OnTier(up: set<Backend>, tier: int): set<Backend> { set x | x in up && x.tier == tier }

  function InZone(up: set<Backend>, zone: string): set<Backend> { set x | x in up && x.zone == zone }

  ghost predicate InOrder(b: Balancer, candidates: seq<Backend>) {
    candidates == UpTo(All(b), SetOf(candidates), |All(b)|)
  }

  lemma {:induction false} UpToSame(bs: seq<Backend>, up: set<Backend>, also: set<Backend>, n: nat)
    requires n <= |bs| && forall i :: 0 <= i < |bs| ==> (bs[i] in up <==> bs[i] in also)
    ensures UpTo(bs, up, n) == UpTo(bs, also, n)
  {
    if n > 0 { UpToSame(bs, up, also, n - 1); }
  }

  lemma UpToInOrder(b: Balancer, up: set<Backend>)
    ensures InOrder(b, UpTo(All(b), up, |All(b)|))
  {
    var r := UpTo(All(b), up, |All(b)|);
    forall i | 0 <= i < |All(b)| ensures All(b)[i] in up <==> All(b)[i] in SetOf(r) {
      if All(b)[i] in r { var k :| 0 <= k < |r| && r[k] == All(b)[i]; }
    }
    UpToSame(All(b), up, SetOf(r), |All(b)|);
  }

  lemma {:induction false} OfTierOfPrefix(pool: seq<Backend>, x: Backend, tier: int, n: nat)
    requires n <= |pool|
    ensures OfTier(pool + [x], tier, n) == OfTier(pool, tier, n)
  {
    if n > 0 { OfTierOfPrefix(pool, x, tier, n - 1); }
  }

  lemma {:induction false} OfTierOfUpTo(bs: seq<Backend>, up: set<Backend>, tier: int, n: nat)
    requires n <= |bs|
    ensures var r := UpTo(bs, up, n); OfTier(r, tier, |r|) == UpTo(bs, OnTier(up, tier), n)
  {
    if n > 0 {
      OfTierOfUpTo(bs, up, tier, n - 1);
      OfTierOfPrefix(UpTo(bs, up, n - 1), bs[n - 1], tier, |UpTo(bs, up, n - 1)|);
    }
  }

  lemma {:induction false} OfZoneOfPrefix(pool: seq<Backend>, x: Backend, zone: string, n: nat)
    requires n <= |pool|
    ensures OfZone(pool + [x], zone, n) == OfZone(pool, zone, n)
  {
    if n > 0 { OfZoneOfPrefix(pool, x, zone, n - 1); }
  }

  lemma {:induction false} OfZoneOfUpTo(bs: seq<Backend>, up: set<Backend>, zone: string, n: nat)
    requires n <= |bs|
    ensures var r := UpTo(bs, up, n); OfZone(r, zone, |r|) == UpTo(bs, InZone(up, zone), n)
  {
    if n > 0 {
      OfZoneOfUpTo(bs, up, zone, n - 1);
      OfZoneOfPrefix(UpTo(bs, up, n - 1), bs[n - 1], zone, |UpTo(bs, up, n - 1)|);
    }
  }

  lemma LowestInOrder(b: Balancer, candidates: seq<Backend>)
    requires InOrder(b, candidates)
    ensures InOrder(b, Lowest(candidates))
  {
    if candidates != [] {
      var up, tier := SetOf(candidates), MinTier(candidates, |candidates|);
      OfTierOfUpTo(All(b), up, tier, |All(b)|);
      UpToInOrder(b, OnTier(up, tier));
    }
  }

  lemma NearInOrder(b: Balancer, candidates: seq<Backend>, zone: string, prefer: bool)
    requires InOrder(b, candidates)
    ensures InOrder(b, Near(candidates, zone, prefer))
  {
    var up := SetOf(candidates);
    OfZoneOfUpTo(All(b), up, zone, |All(b)|);
    UpToInOrder(b, InZone(up, zone));
  }

  /** In the order of the list, the same members are the same candidates. */
  lemma SameIsEqual(b: Balancer, a: seq<Backend>, c: seq<Backend>)
    requires InOrder(b, a) && InOrder(b, c) && SameElements(a, c)
    ensures a == c
  {
    forall x ensures x in SetOf(a) <==> x in SetOf(c) {
      if x in a { var i :| 0 <= i < |a| && a[i] == x; }
      if x in c { var i :| 0 <= i < |c| && c[i] == x; }
    }
    UpToSame(All(b), SetOf(a), SetOf(c), |All(b)|);
  }

  /** Candidates handed down a stack are distinct healthy members, all of them counted. */
  ghost predicate Eligible(b: Balancer, up: set<Backend>, conns: Conns, candidates: seq<Backend>) {
    && InOrder(b, candidates)
    && Distinct(All(b)) && Distinct(candidates)
    && (forall i :: 0 <= i < |All(b)| ==> All(b)[i] in conns)
    && (forall i :: 0 <= i < |candidates| ==> candidates[i] in Pool(b, up) && candidates[i] in conns)
  }

  lemma LowestEligible(b: Balancer, up: set<Backend>, conns: Conns, candidates: seq<Backend>)
    requires Eligible(b, up, conns, candidates)
    ensures Eligible(b, up, conns, Lowest(candidates))
  {
    LowestInOrder(b, candidates);
  }

  lemma NearEligible(b: Balancer, up: set<Backend>, conns: Conns, candidates: seq<Backend>, zone: string, prefer: bool)
    requires Eligible(b, up, conns, candidates)
    ensures Eligible(b, up, conns, Near(candidates, zone, prefer))
  {
    NearInOrder(b, candidates, zone, prefer);
  }

  lemma PoolEligible(b: Balancer, up: set<Backend>, conns: Conns)
    requires Distinct(All(b)) && forall i :: 0 <= i < |All(b)| ==> All(b)[i] in conns
    ensures Eligible(b, up, conns, Pool(b, up))
  {
    UpToInOrder(b, up);
  }

  predicate Keyed(b: Balancer) { if b.Base? then b.keyed else Keyed(b.inner) }

  predicate Ramps(b: Balancer) { !b.Base? && (b.SlowStart? || Ramps(b.inner)) }

  /**
    What a proper part of the pool is chosen by: with a key, and a base that selects by key, by the
    hash alone, so that the same key stays with the same backend; otherwise by load, unless slow
    start draws. The whole pool is left to the base algorithm.
  */
  ghost predicate ChosenBy(b: Balancer, up: set<Backend>, conns: Conns, part: seq<Backend>, key: Option<nat>,
                           r: Option<Backend>)
  {
    part != [] && !SameElements(Pool(b, up), part) ==>
      if key.Some? && Keyed(b) then r == Some(part[key.value % |part|])
      else key.Some? || !Ramps(b) ==> exists k :: 0 <= k < |part| && r == Some(part[k]) && IsLeast(part, conns, k)
  }

  ghost predicate IsLeast(part: seq<Backend>, conns: Conns, k: nat) {
    k < |part| && (forall i :: 0 <= i < |part| ==> part[i] in conns) && LeastLoaded(part, conns, k)
  }

  /**
    One selection through a stack. For every stack, every health set and every draw the result is
    a healthy member of the narrowed pool, reserved exactly once, or an error that reserves nothing.
  */
  method Next(b: Balancer, up: set<Backend>, conns: Conns, key: Option<nat>) returns (r: Option<Backend>, after: Conns)
    requires Distinct(All(b)) && forall i :: 0 <= i < |All(b)| ==> All(b)[i] in conns
    ensures Selected(Narrow(b, Pool(b, up)), conns, r, after)
    ensures ChosenBy(b, up, conns, Narrow(b, Pool(b, up)), key, r)
    decreases b, 1
  {
    PoolEligible(b, up, conns);
    if b.Base? {
      r, after := BaseNext(Pool(b, up), conns);
    } else if b.SlowStart? && key.None? {
      r, after := Ramped(b.inner, up, conns, None);
    } else {
      r, after := PickFrom(b, up, conns, Pool(b, up), key);
    }
  }

  /** Choosing from candidates that an outer wrapper has already narrowed. */
  method PickFrom(b: Balancer, up: set<Backend>, conns: Conns, candidates: seq<Backend>, key: Option<nat>)
    returns (r: Option<Backend>, after: Conns)
    requires !b.Base? && Eligible(b, up, conns, candidates)
    ensures Selected(Narrow(b, candidates), conns, r, after)
    ensures ChosenBy(b, up, conns, Narrow(b, candidates), key, r)
    decreases b, 0
  {
    match b {
      case Tiers(inner) =>
        var e := EligibleByTier(candidates);
        LowestEligible(inner, up, conns, candidates);
        r, after := SelectFrom(inner, up, conns, e, key);
      case Zone(inner, zone, prefer) =>
        var e := EligibleByZone(candidates, zone, prefer);
        NearEligible(inner, up, conns, candidates, zone, prefer);
        r, after := SelectFrom(inner, up, conns, e, key);
      case SlowStart(inner) =>
        if key.Some? {
          r, after := SelectFrom(inner, up, conns, candidates, key);
        } else {
          r, after := Ramped(inner, up, conns, Some(candidates));
        }
    }
  }

  /** selectFrom and keyedSelectFrom. */
  method SelectFrom(inner: Balancer, up: set<Backend>, conns: Conns, candidates: seq<Backend>, key: Option<nat>)
    returns (r: Option<Backend>, after: Conns)
    requires Eligible(inner, up, conns, candidates)
    ensures Selected(Narrow(inner, candidates), conns, r, after)
    ensures ChosenBy(inner, up, conns, Narrow(inner, candidates), key, r)
    decreases inner, 2
  {
    NarrowWithin(inner, candidates);
    if candidates == [] { return None, conns; }
    var same := SameSet(Pool(inner, up), candidates);
    if same {
      UpToInOrder(inner, up);
      SameIsEqual(inner, Pool(inner, up), candidates);
      r, after := Next(inner, up, conns, key);
    } else if !inner.Base? {
      r, after := PickFrom(inner, up, conns, candidates, key);
    } else if key.Some? && inner.keyed {
      r, after := HashPick(candidates, conns, key.value);
    } else {
      r, after := StatelessPick(candidates, conns);
    }
  }

  /** The slow-start rejection loop: every rejected reservation is given back before the next try. */
  method Ramped(inner: Balancer, up: set<Backend>, conns: Conns, from: Option<seq<Backend>>)
    returns (r: Option<Backend>, after: Conns)
    requires Eligible(inner, up, conns, if from.Some? then from.value else Pool(inner, up))
    ensures Selected(Narrow(inner, if from.Some? then from.value else Pool(inner, up)), conns, r, after)
    decreases inner, 3
  {
    ghost var narrowed := Narrow(inner, if from.Some? then from.value else Pool(inner, up));
    var last: Option<Backend> := None;
    after := conns;
    for i := 0 to 8
      invariant after == conns
      invariant i > 0 ==> last.Some? && last.value in narrowed && last.value in conns
    {
      if from.Some? {
        r, after := SelectFrom(inner, up, after, from.value, None);
      } else {
        r, after := Next(inner, up, after, None);
      }
      var accepted: bool := *;
      if r.None? || accepted { return; }
      GivenBack(conns, r.value);
      after := Decr(after, r.value);
      last := r;
    }
    return last, Incr(after, last.value);
  }

  // ---------------------------------------------------------------------------
  // The order of narrowing
  // ---------------------------------------------------------------------------

  /**
    Zone above tiers, as the server builds it, narrows by zone first. It agrees with narrowing by
    tier first exactly when the zone filter is off, no backend is local, or the lowest tier has a
    local member; otherwise a local backup is preferred to a remote primary.
  */
  lemma ZoneOverTiersIff(base: Balancer, pool: seq<Backend>, zone: string, prefer: bool)
    requires base.Base? && pool != []
    ensures var zoneFirst := Narrow(Zone(Tiers(base), zone, prefer), pool);
            var tierFirst := Narrow(Tiers(Zone(base, zone, prefer)), pool);
            SameElements(zoneFirst, tierFirst) <==>
            || !prefer || zone == "" || OfZone(pool, zone, |pool|) == []
            || OfZone(Lowest(pool), zone, |Lowest(pool)|) != []
  {
    var near, low := OfZone(pool, zone, |pool|), Lowest(pool);
    var nearLow := OfZone(low, zone, |low|);
    var zt, tz := Narrow(Zone(Tiers(base), zone, prefer), pool), Narrow(Tiers(Zone(base, zone, prefer)), pool);
    assert zt == Narrow(Tiers(base), Near(pool, zone, prefer)) == Lowest(Near(pool, zone, prefer));
    assert tz == Narrow(Zone(base, zone, prefer), low) == Near(low, zone, prefer);
    if prefer && zone != "" {
      if near == [] {
        NoneLocal(pool, zone);
      } else if nearLow != [] {
        LocalInLowestTier(pool, zone);
      } else {
        LocalOnlyAbove(pool, zone);
      }
    }
  }

  lemma NoneLocal(pool: seq<Backend>, zone: string)
    requires pool != [] && OfZone(pool, zone, |pool|) == []
    ensures OfZone(Lowest(pool), zone, |Lowest(pool)|) == []
  {
    var low := Lowest(pool);
    assert forall i :: 0 <= i < |pool| ==> pool[i].zone != zone;
    forall i | 0 <= i < |low| ensures low[i].zone != zone { assert low[i] in pool; }
    OfZoneNone(low, zone, |low|);
  }

  lemma {:induction false} OfZoneNone(pool: seq<Backend>, zone: string, n: nat)
    requires n <= |pool| && forall i :: 0 <= i < |pool| ==> pool[i].zone != zone
    ensures OfZone(pool, zone, n) == []
  {
    if n > 0 { OfZoneNone(pool, zone, n - 1); }
  }

  lemma LocalInLowestTier(pool: seq<Backend>, zone: string)
    requires pool != [] && OfZone(Lowest(pool), zone, |Lowest(pool)|) != []
    ensures OfZone(pool, zone, |pool|) != []
    ensures SameElements(Lowest(OfZone(pool, zone, |pool|)), OfZone(Lowest(pool), zone, |Lowest(pool)|))
  {
    var near, low, t := OfZone(pool, zone, |pool|), Lowest(pool), MinTier(pool, |pool|);
    var nearLow := OfZone(low, zone, |low|);
    forall i | 0 <= i < |nearLow| ensures nearLow[i] in near && nearLow[i].tier == t {
      assert nearLow[i] in low && nearLow[i] in pool;
    }
    assert nearLow[0] in near;
    assert MinTier(near, |near|) == t by {
      MinTierSame(near, pool);
      var j :| 0 <= j < |near| && near[j] == nearLow[0];
    }
    var up := OfTier(near, t, |near|);
    forall i | 0 <= i < |nearLow| ensures nearLow[i] in up {
      var k :| 0 <= k < |near| && near[k] == nearLow[i];
    }
    forall i | 0 <= i < |up| ensures up[i] in nearLow { LocalLowest(pool, zone, up[i]); }
  }

  lemma LocalLowest(pool: seq<Backend>, zone: string, x: Backend)
    requires pool != [] && x in OfZone(pool, zone, |pool|) && x.tier == MinTier(pool, |pool|)
    ensures x in OfZone(Lowest(pool), zone, |Lowest(pool)|)
  {
    assert x in pool && x.zone == zone;
    assert x in Lowest(pool);
  }

  lemma LocalOnlyAbove(pool: seq<Backend>, zone: string)
    requires pool != [] && OfZone(pool, zone, |pool|) != [] && OfZone(Lowest(pool), zone, |Lowest(pool)|) == []
    ensures !SameElements(Lowest(OfZone(pool, zone, |pool|)), Lowest(pool))
  {
    var near, low := OfZone(pool, zone, |pool|), Lowest(pool);
    var up := Lowest(near);
    var j :| 0 <= j < |near| && MinTier(near, |near|) == near[j].tier;
    assert near[j] in up;
    var x := near[j];
    assert x.zone == zone && x in up;
    assert forall i :: 0 <= i < |low| ==> low[i].zone != zone;
    assert x !in low;
  }
}
