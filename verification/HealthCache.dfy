/**
  The lock-light cache behind GetHealthy (internal/balancer/balancer.go), as the interleaving of
  any number of GetHealthy calls with Add, Remove and SetHealthy, whose flag swap and epoch bump
  are two separate steps. Backends are numbered; `up` is the set of those whose flag is set.
*/
module HealthCache {
  import opened Options

  type Id = nat
  type Thread = nat

  datatype Cache = Cache(epoch: nat, gen: nat, list: seq<Id>)

  /** Where a GetHealthy call stands; Locked and Scanning hold the read lock. */
  datatype Call =
    | Loaded(epoch: nat)
    | Locked(epoch: nat, gen: nat)
    | Scanning(epoch: nat, gen: nat, next: nat, found: seq<Id>)
    | Scanned(epoch: nat, gen: nat, found: seq<Id>)
    | Done(epoch: nat, gen: nat, found: seq<Id>)

  /** `flips` counts the SetHealthy calls that have swapped a flag and not yet bumped the epoch. */
  datatype State = State(backends: seq<Id>, up: set<Id>, epoch: nat, gen: nat, flips: nat,
                         cache: Option<Cache>, calls: map<Thread, Call>)

  datatype Step =
    | Swap(b: Id, v: bool)
    | Bump
    | Add(b: Id)
    | Remove(b: Id)
    | Load(t: Thread)
    | Lock(t: Thread)
    | Check(t: Thread)
    | Scan(t: Thread)
    | Unlock(t: Thread)
    | Publish(t: Thread)
    | Return(t: Thread)

  /** The reference: the first n backends, in order, whose flag is set. */
  function Healthy(backends: seq<Id>, up: set<Id>, n: nat): seq<Id>
    requires n <= |backends|
  {
    if n == 0 then []
    else if backends[n - 1] in up then Healthy(backends, up, n - 1) + [backends[n - 1]]
    else Healthy(backends, up, n - 1)
  }

  /** The filter keeps the order and drops exactly those whose flag is not set. */
  lemma {:induction false} HealthyInOrder(backends: seq<Id>, up: set<Id>, m: nat, n: nat)
    requires m <= n <= |backends|
    ensures Healthy(backends, up, m) <= Healthy(backends, up, n)
    ensures forall i :: 0 <= i < n && backends[i] in up ==> backends[i] in Healthy(backends, up, n)
    ensures forall b :: b in Healthy(backends, up, n) ==> b in up && b in backends
  {
    if m < n {
      HealthyInOrder(backends, up, m, n - 1);
    } else if n > 0 {
      HealthyInOrder(backends, up, m - 1, n - 1);
    }
  }

  function Current(s: State): seq<Id> { Healthy(s.backends, s.up, |s.backends|) }

  ghost predicate ReadLocked(s: State) {
    exists t :: t in s.calls && (s.calls[t].Locked? || s.calls[t].Scanning?)
  }

  ghost predicate Enabled(s: State, l: Step) {
    match l
    case Swap(_, _) => true
    case Bump => s.flips > 0
    case Add(_) => !ReadLocked(s)
    case Remove(_) => !ReadLocked(s)
    case Load(t) => t !in s.calls
    case Lock(t) => t in s.calls && s.calls[t].Loaded?
    case Check(t) => t in s.calls && s.calls[t].Locked?
    case Scan(t) => t in s.calls && s.calls[t].Scanning? && s.calls[t].next < |s.backends|
    case Unlock(t) => t in s.calls && s.calls[t].Scanning? && s.calls[t].next >= |s.backends|
    case Publish(t) => t in s.calls && s.calls[t].Scanned?
    case Return(t) => t in s.calls && s.calls[t].Done?
  }

  function IndexOf(backends: seq<Id>, b: Id, n: nat): (i: nat)
    requires n <= |backends|
    ensures i <= n && (i < n ==> backends[i] == b) && forall j :: 0 <= j < i ==> backends[j] != b
  {
    if n == 0 then 0
    else
      var i := IndexOf(backends, b, n - 1);
      if i < n - 1 || backends[n - 1] == b then i else n
  }

  /** The cached list when its epoch and generation are the ones the call has read. */
  ghost predicate Hit(s: State, c: Call)
    requires c.Locked?
  {
    s.cache.Some? && s.cache.value.epoch == c.epoch && s.cache.value.gen == c.gen
  }

  ghost function Next(s: State, l: Step): State
    requires Enabled(s, l)
  {
    match l
    case Swap(b, v) =>
      if (b in s.up) == v then s else s.(up := if v then s.up + {b} else s.up - {b}, flips := s.flips + 1)
    case Bump => s.(epoch := s.epoch + 1, flips := s.flips - 1)
    case Add(b) => s.(backends := s.backends + [b], gen := s.gen + 1)
    case Remove(b) =>
      var i := IndexOf(s.backends, b, |s.backends|);
      if i == |s.backends| then s else s.(backends := s.backends[..i] + s.backends[i + 1..], gen := s.gen + 1)
    case Load(t) => s.(calls := s.calls[t := Loaded(s.epoch)])
    case Lock(t) => s.(calls := s.calls[t := Locked(s.calls[t].epoch, s.gen)])
    case Check(t) =>
      var c := s.calls[t];
      if Hit(s, c) then s.(calls := s.calls[t := Done(c.epoch, c.gen, s.cache.value.list)])
      else s.(calls := s.calls[t := Scanning(c.epoch, c.gen, 0, [])])
    case Scan(t) =>
      var c := s.calls[t];
      var b := s.backends[c.next];
      s.(calls := s.calls[t := c.(next := c.next + 1, found := if b in s.up then c.found + [b] else c.found)])
    case Unlock(t) =>
      var c := s.calls[t];
      s.(calls := s.calls[t := Scanned(c.epoch, c.gen, c.found)])
    case Publish(t) =>
      var c := s.calls[t];
      s.(cache := Some(Cache(c.epoch, c.gen, c.found)), calls := s.calls[t := Done(c.epoch, c.gen, c.found)])
    case Return(t) => s.(calls := s.calls - {t})
  }

  ghost predicate Init(s: State) {
    s.backends == [] && s.epoch == 0 && s.gen == 0 && s.flips == 0 && s.cache == None && s.calls == map[]
  }

  ghost predicate Took(s: State, l: Step, s': State) { Enabled(s, l) && s' == Next(s, l) }

  /** Any interleaving. */
  ghost predicate IsRun(ss: seq<State>, ls: seq<Step>) {
    |ss| == |ls| + 1 && Init(ss[0]) && forall i :: 0 <= i < |ls| ==> Took(ss[i], ls[i], ss[i + 1])
  }

  // ---------------------------------------------------------------------------
  // The invariant
  // ---------------------------------------------------------------------------

  /** A list read under (epoch, gen) is the current one if these still are and no flip is in flight. */
  ghost predicate Trusted(s: State, epoch: nat, gen: nat, list: seq<Id>) {
    epoch <= s.epoch && gen <= s.gen && (s.flips == 0 && epoch == s.epoch && gen == s.gen ==> list == Current(s))
  }

  ghost predicate CallInv(s: State, c: Call) {
    match c
    case Loaded(epoch) => epoch <= s.epoch
    case Locked(epoch, gen) => epoch <= s.epoch && gen == s.gen
    case Scanning(epoch, gen, next, found) =>
      && epoch <= s.epoch && gen == s.gen && next <= |s.backends|
      && (s.flips == 0 && epoch == s.epoch ==> found == Healthy(s.backends, s.up, next))
    case Scanned(epoch, gen, found) => Trusted(s, epoch, gen, found)
    case Done(epoch, gen, found) => Trusted(s, epoch, gen, found)
  }

  ghost predicate Inv(s: State) {
    && (s.cache.Some? ==> Trusted(s, s.cache.value.epoch, s.cache.value.gen, s.cache.value.list))
    && forall t :: t in s.calls ==> CallInv(s, s.calls[t])
  }

  /** Steps of the environment keep what a call knows, the lock permitting. */
  lemma EnvironmentKeeps(s: State, l: Step, c: Call)
    requires Enabled(s, l) && (l.Swap? || l.Bump? || l.Add? || l.Remove?) && CallInv(s, c)
    requires (l.Add? || l.Remove?) ==> !c.Locked? && !c.Scanning?
    ensures CallInv(Next(s, l), c)
  {}

  predicate OfEnvironment(l: Step) { l.Swap? || l.Bump? || l.Add? || l.Remove? }

  lemma EnvironmentKeepsInv(s: State, l: Step)
    requires Inv(s) && Enabled(s, l) && OfEnvironment(l)
    ensures Inv(Next(s, l))
  {
    var s' := Next(s, l);
    forall t | t in s'.calls ensures CallInv(s', s'.calls[t]) { EnvironmentKeeps(s, l, s.calls[t]); }
    if s.cache.Some? {
      EnvironmentKeeps(s, l, Scanned(s.cache.value.epoch, s.cache.value.gen, s.cache.value.list));
    }
  }

  /** A step of one call changes nothing that another one relies on. */
  lemma CallKeeps(s: State, l: Step, c: Call)
    requires Enabled(s, l) && !OfEnvironment(l) && CallInv(s, c)
    ensures CallInv(Next(s, l), c)
  {
    var s' := Next(s, l);
    assert s'.backends == s.backends && s'.up == s.up && s'.epoch == s.epoch && s'.gen == s.gen && s'.flips == s.flips;
  }

  lemma CallKeepsInv(s: State, l: Step)
    requires Inv(s) && Enabled(s, l) && !OfEnvironment(l)
    ensures Inv(Next(s, l))
  {
    var s' := Next(s, l);
    if !l.Load? { assert CallInv(s, s.calls[l.t]); }
    forall t | t in s'.calls ensures CallInv(s', s'.calls[t]) {
      if t != l.t { CallKeeps(s, l, s.calls[t]); }
    }
  }

  lemma StepKeepsInv(s: State, l: Step)
    requires Inv(s) && Enabled(s, l)
    ensures Inv(Next(s, l))
  {
    if OfEnvironment(l) { EnvironmentKeepsInv(s, l); } else { CallKeepsInv(s, l); }
  }

  lemma {:induction false} RunKeepsInv(ss: seq<State>, ls: seq<Step>, n: nat)
    requires IsRun(ss, ls) && n < |ss|
    ensures Inv(ss[n])
  {
    if n > 0 {
      RunKeepsInv(ss, ls, n - 1);
      assert Took(ss[n - 1], ls[n - 1], ss[n]);
      StepKeepsInv(ss[n - 1], ls[n - 1]);
    }
  }

  /**
    In every interleaving, whenever no SetHealthy stands between its swap and its bump, a cache
    with the current epoch and generation is the in-order filter of the backends by health.
  */
  lemma CacheIsCurrent(ss: seq<State>, ls: seq<Step>, n: nat)
    requires IsRun(ss, ls) && n < |ss| && ss[n].flips == 0 && ss[n].cache.Some?
    requires ss[n].cache.value.epoch == ss[n].epoch && ss[n].cache.value.gen == ss[n].gen
    ensures ss[n].cache.value.list == Current(ss[n])
  {
    RunKeepsInv(ss, ls, n);
  }

  // ---------------------------------------------------------------------------
  // What a call returns
  // ---------------------------------------------------------------------------

  /** Thread t runs one call from step i to state j, where its result is ready. */
  ghost predicate Spans(ss: seq<State>, ls: seq<Step>, t: Thread, i: nat, j: nat) {
    && IsRun(ss, ls) && i < j < |ss| && ls[i] == Load(t)
    && (forall k :: i < k < j ==> ls[k] != Load(t) && ls[k] != Return(t))
    && t in ss[j].calls && ss[j].calls[t].Done?
  }

  lemma CountersGrow(s: State, l: Step)
    requires Enabled(s, l)
    ensures s.epoch <= Next(s, l).epoch && s.gen <= Next(s, l).gen
  {}

  lemma {:induction false} CallKeepsItsEpoch(ss: seq<State>, ls: seq<Step>, t: Thread, i: nat, j: nat)
    requires IsRun(ss, ls) && i < j < |ss| && ls[i] == Load(t)
    requires forall k :: i < k < j ==> ls[k] != Load(t) && ls[k] != Return(t)
    ensures t in ss[j].calls && ss[j].calls[t].epoch == ss[i].epoch <= ss[j].epoch && ss[i].gen <= ss[j].gen
    ensures !ss[j].calls[t].Loaded? ==> ss[i].gen <= ss[j].calls[t].gen <= ss[j].gen
    decreases j
  {
    assert Took(ss[j - 1], ls[j - 1], ss[j]);
    CountersGrow(ss[j - 1], ls[j - 1]);
    if j - 1 > i { CallKeepsItsEpoch(ss, ls, t, i, j - 1); }
  }

  /** A call during which neither the epoch nor the topology changed returns exactly the healthy list. */
  lemma UndisturbedCallIsExact(ss: seq<State>, ls: seq<Step>, t: Thread, i: nat, j: nat)
    requires Spans(ss, ls, t, i, j)
    requires ss[j].flips == 0 && ss[j].epoch == ss[i].epoch && ss[j].gen == ss[i].gen
    ensures ss[j].calls[t].found == Current(ss[j])
  {
    RunKeepsInv(ss, ls, j);
    assert CallInv(ss[j], ss[j].calls[t]);
    CallKeepsItsEpoch(ss, ls, t, i, j);
  }

  lemma {:induction false} HealthyAreUp(backends: seq<Id>, up: set<Id>, n: nat)
    requires n <= |backends|
    ensures forall b :: b in Healthy(backends, up, n) ==> b in up
  {
    if n > 0 { HealthyAreUp(backends, up, n - 1); }
  }

  /**
    The proviso is needed: from any quiet state with a matching cache, swapping the flag of a
    listed backend leaves the cache matching and wrong, until the bump makes it stop matching.
  */
  lemma MidFlipTheCacheIsStale(ss: seq<State>, ls: seq<Step>, b: Id)
    requires IsRun(ss, ls)
    requires var s := ss[|ls|];
             s.flips == 0 && s.cache.Some? && s.cache.value.epoch == s.epoch && s.cache.value.gen == s.gen
    requires b in ss[|ls|].cache.value.list
    ensures var mid := Next(ss[|ls|], Swap(b, false));
            && Enabled(mid, Bump)
            && mid.cache.Some? && mid.cache.value.epoch == mid.epoch && mid.cache.value.gen == mid.gen
            && mid.cache.value.list != Current(mid)
            && Next(mid, Bump).cache.value.epoch != Next(mid, Bump).epoch
  {
    var s := ss[|ls|];
    var mid := Next(s, Swap(b, false));
    CacheIsCurrent(ss, ls, |ls|);
    HealthyAreUp(s.backends, s.up, |s.backends|);
    HealthyAreUp(mid.backends, mid.up, |mid.backends|);
  }

  // ---------------------------------------------------------------------------
  // What the list and the flags are
  // ---------------------------------------------------------------------------

  /** How often a backend is listed after the first n steps: a removal takes one copy away, if there is one. */
  ghost function Copies(ls: seq<Step>, b: Id, n: nat): nat
    requires n <= |ls|
  {
    if n == 0 then 0
    else
      var c := Copies(ls, b, n - 1);
      if ls[n - 1] == Add(b) then c + 1 else if ls[n - 1] == Remove(b) && c > 0 then c - 1 else c
  }

  ghost function Listed(backends: seq<Id>, b: Id, n: nat): nat
    requires n <= |backends|
  {
    if n == 0 then 0 else Listed(backends, b, n - 1) + if backends[n - 1] == b then 1 else 0
  }

  lemma {:induction false} ListedPrefix(a: seq<Id>, c: seq<Id>, b: Id, n: nat)
    requires n <= |a| && n <= |c| && forall i :: 0 <= i < n ==> a[i] == c[i]
    ensures Listed(a, b, n) == Listed(c, b, n)
  {
    if n > 0 { ListedPrefix(a, c, b, n - 1); }
  }

  /** The list without its element k, counted up to there and beyond. */
  lemma {:induction false} ListedWithout(backends: seq<Id>, k: nat, b: Id, n: nat)
    requires k < n <= |backends|
    ensures Listed(backends[..k] + backends[k + 1..], b, n - 1) ==
            Listed(backends, b, n) - if backends[k] == b then 1 else 0
  {
    var rest := backends[..k] + backends[k + 1..];
    if n == k + 1 {
      ListedPrefix(rest, backends, b, k);
    } else {
      ListedWithout(backends, k, b, n - 1);
      assert rest[n - 2] == backends[n - 1];
    }
  }

  lemma {:induction false} NotListed(backends: seq<Id>, b: Id, n: nat)
    requires n <= |backends| && forall i :: 0 <= i < n ==> backends[i] != b
    ensures Listed(backends, b, n) == 0
  {
    if n > 0 { NotListed(backends, b, n - 1); }
  }

  lemma CopiesStep(s: State, l: Step, s': State, b: Id)
    requires Took(s, l, s')
    ensures var c := Listed(s.backends, b, |s.backends|);
            Listed(s'.backends, b, |s'.backends|) ==
            if l == Add(b) then c + 1 else if l == Remove(b) && c > 0 then c - 1 else c
  {
    if l.Add? {
      ListedPrefix(s.backends, s'.backends, b, |s.backends|);
    } else if l.Remove? {
      var i := IndexOf(s.backends, l.b, |s.backends|);
      if i < |s.backends| {
        ListedWithout(s.backends, i, b, |s.backends|);
      } else {
        NotListed(s.backends, l.b, |s.backends|);
      }
    }
  }

  /** In every run the list holds what was added and not removed. */
  lemma {:induction false} ListIsLedger(ss: seq<State>, ls: seq<Step>, b: Id, n: nat)
    requires IsRun(ss, ls) && n <= |ls|
    ensures Listed(ss[n].backends, b, |ss[n].backends|) == Copies(ls, b, n)
  {
    if n > 0 {
      ListIsLedger(ss, ls, b, n - 1);
      assert Took(ss[n - 1], ls[n - 1], ss[n]);
      CopiesStep(ss[n - 1], ls[n - 1], ss[n], b);
    }
  }

  /** The flag that was last asked for, or the one there was at the start. */
  ghost predicate Flag(ls: seq<Step>, b: Id, first: bool, n: nat)
    requires n <= |ls|
  {
    if n == 0 then first
    else if ls[n - 1].Swap? && ls[n - 1].b == b then ls[n - 1].v
    else Flag(ls, b, first, n - 1)
  }

  lemma {:induction false} FlagsAreLast(ss: seq<State>, ls: seq<Step>, b: Id, n: nat)
    requires IsRun(ss, ls) && n <= |ls|
    ensures b in ss[n].up <==> Flag(ls, b, b in ss[0].up, n)
  {
    if n > 0 {
      FlagsAreLast(ss, ls, b, n - 1);
      assert Took(ss[n - 1], ls[n - 1], ss[n]);
    }
  }

  /** What one call has published, the next one returns without scanning. */
  lemma PublishedIsHit(s: State, t: Thread, u: Thread, ss: seq<State>)
    requires t in s.calls && s.calls[t].Scanned? && u !in s.calls
    requires s.calls[t].epoch == s.epoch && s.calls[t].gen == s.gen
    requires |ss| == 4 && Took(s, Publish(t), ss[0])
    requires Took(ss[0], Load(u), ss[1]) && Took(ss[1], Lock(u), ss[2]) && Took(ss[2], Check(u), ss[3])
    ensures u in ss[3].calls && ss[3].calls[u] == Done(s.epoch, s.gen, s.calls[t].found)
  {
  }
}
