/**
  BaseBalancer of internal/balancer/balancer.go in its own form: the backend list edited in
  place, the generation, the process-wide health epoch and the cached healthy list. Calls run
  one at a time here; HealthCache.dfy covers their interleavings.
*/
module BaseBalancing {
  import opened Backends
  import opened Options

  class HealthEpoch {
    var count: nat

    constructor () ensures count == 0 { count := 0; }
  }

  datatype Cached = Cached(list: seq<Backend>, epoch: nat, gen: nat)

  /** The in-order filter of the first n backends by their health flag. */
  function Healthy(bs: seq<Backend>, n: nat): (r: seq<Backend>)
    requires n <= |bs|
    reads bs
    ensures forall i :: 0 <= i < n && bs[i].healthy ==> bs[i] in r
    ensures forall i :: 0 <= i < |r| ==> r[i] in bs && r[i].healthy
  {
    if n == 0 then []
    else if bs[n - 1].healthy then Healthy(bs, n - 1) + [bs[n - 1]] else Healthy(bs, n - 1)
  }

  /** The filter keeps the order: what an earlier part of the list gives comes first. */
  lemma {:induction false} HealthyInOrder(bs: seq<Backend>, m: nat, n: nat)
    requires m <= n <= |bs|
    ensures Healthy(bs, m) <= Healthy(bs, n)
  {
    if m < n { HealthyInOrder(bs, m, n - 1); }
  }

  class BaseBalancer {
    const epoch: HealthEpoch
    var backends: seq<Backend>
    var gen: nat
    var cache: Option<Cached>

    ghost predicate Valid()
      reads this, epoch, backends
    {
      cache.Some? ==>
        && cache.value.epoch <= epoch.count && cache.value.gen <= gen
        && (cache.value.epoch == epoch.count && cache.value.gen == gen ==>
              cache.value.list == Healthy(backends, |backends|))
    }

    constructor (epoch: HealthEpoch)
      ensures Valid() && this.epoch == epoch && backends == [] && gen == 0 && cache == None
    {
      this.epoch, backends, gen, cache := epoch, [], 0, None;
    }

    method Add(b: Backend)
      requires Valid()
      modifies this`backends, this`gen
      ensures Valid() && backends == old(backends) + [b] && gen == old(gen) + 1
    {
      backends, gen := backends + [b], gen + 1;
    }

    /** Drops the first occurrence; an unknown backend changes nothing. */
    method Remove(b: Backend)
      requires Valid()
      modifies this`backends, this`gen
      ensures Valid()
      ensures b !in old(backends) ==> backends == old(backends) && gen == old(gen)
      ensures b in old(backends) ==> gen == old(gen) + 1 && exists i ::
                && 0 <= i < |old(backends)| && old(backends)[i] == b && b !in old(backends)[..i]
                && backends == old(backends)[..i] + old(backends)[i + 1..]
    {
      for i := 0 to |backends|
        invariant backends == old(backends) && gen == old(gen) && b !in backends[..i]
      {
        if backends[i] == b {
          backends, gen := backends[..i] + backends[i + 1..], gen + 1;
          return;
        }
        assert backends[..i + 1] == backends[..i] + [backends[i]];
      }
      assert backends[..|backends|] == backends;
    }

    /** With or without a cache hit the answer is the current filter. */
    method GetHealthy() returns (r: seq<Backend>)
      requires Valid()
      modifies this`cache
      ensures Valid() && r == Healthy(backends, |backends|)
      ensures cache == Some(Cached(r, epoch.count, gen))
    {
      if cache.Some? && cache.value.epoch == epoch.count && cache.value.gen == gen {
        return cache.value.list;
      }
      r := [];
      for i := 0 to |backends|
        invariant r == Healthy(backends, i)
      {
        if backends[i].healthy { r := r + [backends[i]]; }
      }
      cache := Some(Cached(r, epoch.count, gen));
    }
  }

  /** A flip of any backend's flag keeps every balancer's cache honest, whoever holds the backend. */
  method SetHealthy(b: Backend, v: bool, epoch: HealthEpoch, ghost all: set<BaseBalancer>)
    requires forall x :: x in all ==> x.Valid() && x.epoch == epoch
    modifies b`healthy, epoch
    ensures b.healthy == v && epoch.count == old(epoch.count) + (if old(b.healthy) == v then 0 else 1)
    ensures forall x :: x in all ==> x.Valid()
  {
    if b.healthy != v {
      b.healthy := v;
      epoch.count := epoch.count + 1;
    }
  }
}
