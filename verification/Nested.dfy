/**
  Opening a circuit on a sibling's word fires the state-change hook, which pushes and reads again and
  may open again (internal/circuit/redis_sync.go). The lock is released before the hook, so that
  meanwhile the record may go through any calls and the hash through anything.
*/
module NestedOpening {
  import opened Backends
  import opened CircuitBreaking
  import opened Options
  import opened SharedBreaker

  /** An entry that is looked at, and how many of the level's calls come before. */
  datatype Visit = Visit(id: string, at: nat)

  /**
    What surrounds the push at one depth: the calls made on the record until the opening it may ask
    for, how many of them come before its state is read, the hash the script finds, the order and the
    moments in which its entries are judged, and the clocks at the script, the judging and the opening.
  */
  datatype Level = Level(own: seq<Event>, readAt: nat, hash: map<string, Entry>, visits: seq<Visit>,
                         stamp: nat, now: int, at: int)

  /** How many calls come before the k-th visit, or before the read if there is none. */
  function Moment(l: Level, k: int): nat
    requires k < |l.visits|
  {
    if k < 0 then l.readAt else l.visits[k].at
  }

  predicate Ordered(l: Level) {
    && (forall k :: -1 <= k < |l.visits| ==> Moment(l, k) <= |l.own|)
    && (forall j, k :: -1 <= j <= k < |l.visits| ==> Moment(l, j) <= Moment(l, k))
    && (forall id :: id in l.hash ==> exists k :: 0 <= k < |l.visits| && l.visits[k].id == id)
  }

  predicate Sequenced(ls: seq<Level>) { forall i :: 0 <= i < |ls| ==> Ordered(ls[i]) }

  /** One replica and its breaker's configuration. */
  datatype Replica = Replica(id: string, ttl: int, config: Config)

  function After(c: Config, r: Record, es: seq<Event>, n: nat): (r': Record)
    requires n <= |es| && Shaped(r)
    ensures Shaped(r')
  {
    if n == 0 then r else Step(c, After(c, r, es, n - 1), es[n - 1])
  }

  /** Where an opening, or a push, leaves the record and the hash, and how often the hook was fired. */
  datatype Outcome = Outcome(record: Record, entries: map<string, Entry>, hooks: nat)

  /** The hash after the script: what was found there, and this replica's entry. */
  function Written(p: Replica, r: Record, l: Level): map<string, Entry>
    requires Shaped(r) && Ordered(l)
  {
    var local := After(p.config, r, l.own, Moment(l, -1));
    l.hash[p.id := Entry(local.state, local.failures, l.stamp)]
  }

  /** The entry visited k-th, judged by the recovery time of that moment, asks for an opening. */
  predicate Convinces(p: Replica, r: Record, l: Level, k: nat)
    requires Shaped(r) && Ordered(l) && k < |l.visits|
  {
    var id, judged := l.visits[k].id, After(p.config, r, l.own, Moment(l, k));
    && id in Written(p, r, l) && id != p.id
    && Convincing(Written(p, r, l)[id], View(p.id, l.now, p.ttl, RecoveredAt(judged)))
  }

  predicate Convinced(p: Replica, r: Record, l: Level)
    requires Shaped(r) && Ordered(l)
  {
    exists k :: 0 <= k < |l.visits| && Convinces(p, r, l, k)
  }

  function Pushed(p: Replica, r: Record, ls: seq<Level>, i: nat): (o: Outcome)
    requires Shaped(r) && Sequenced(ls) && i < |ls|
    decreases |ls| - i, 0
  {
    var l := ls[i];
    if Convinced(p, r, l)
    then Opened(p, After(p.config, r, l.own, |l.own|), Written(p, r, l), l.at, ls, i + 1)
    else Outcome(After(p.config, r, l.own, Moment(l, |l.visits| - 1)), Written(p, r, l), 0)
  }

  /** A push beyond the last level fails. */
  function Opened(p: Replica, r: Record, entries: map<string, Entry>, at: int, ls: seq<Level>, i: nat): (o: Outcome)
    requires Shaped(r) && Sequenced(ls) && i <= |ls|
    decreases |ls| - i, 1
  {
    if r.state.Open? then Outcome(r, entries, 0)
    else if i == |ls| then Outcome(ForceStep(r, at), entries, 1)
    else
      var o := Pushed(p, ForceStep(r, at), ls, i);
      o.(hooks := o.hooks + 1)
  }

  class SharedHash {
    var entries: map<string, Entry>

    constructor ()
      ensures entries == map[]
    {
      entries := map[];
    }
  }

  class Syncer {
    const self: Replica
    const hash: SharedHash
    var record: Record

    constructor (self: Replica, hash: SharedHash)
      ensures this.self == self && this.hash == hash && record == FRESH
    {
      this.self, this.hash, record := self, hash, FRESH;
    }

    /** Calls j to k of a level, made by other goroutines on a record that was `start` before call 0. */
    method Meanwhile(own: seq<Event>, j: nat, k: nat, ghost start: Record)
      requires j <= k <= |own| && Shaped(start) && record == After(self.config, start, own, j)
      modifies `record
      ensures record == After(self.config, start, own, k)
    {
      for n := j to k
        invariant record == After(self.config, start, own, n)
      {
        record := Step(self.config, record, own[n]);
      }
    }

    /** Writes this replica's entry, reads the hash and acts on the first entry that convinces. */
    method PushOne(ls: seq<Level>, i: nat) returns (hooks: nat)
      requires Shaped(record) && Sequenced(ls) && i < |ls|
      modifies `record, hash
      ensures Outcome(record, hash.entries, hooks) == Pushed(self, old(record), ls, i) && Shaped(record)
      ensures hooks == 0 ==>
                var local := After(self.config, old(record), ls[i].own, ls[i].readAt);
                hash.entries == ls[i].hash[self.id := Entry(local.state, local.failures, ls[i].stamp)]
      decreases |ls| - i, 0
    {
      var l := ls[i];
      ghost var start := record;
      assert Ordered(l);
      Meanwhile(l.own, 0, Moment(l, -1), start);
      hash.entries := l.hash[self.id := Entry(record.state, record.failures, l.stamp)];
      for k := 0 to |l.visits|
        invariant record == After(self.config, start, l.own, Moment(l, k - 1))
        invariant hash.entries == Written(self, start, l)
        invariant forall j :: 0 <= j < k ==> !Convinces(self, start, l, j)
      {
        Meanwhile(l.own, Moment(l, k - 1), Moment(l, k), start);
        var id := l.visits[k].id;
        if id !in hash.entries || id == self.id { continue; }
        if Convincing(hash.entries[id], View(self.id, l.now, self.ttl, RecoveredAt(record))) {
          assert Convinces(self, start, l, k);
          Meanwhile(l.own, Moment(l, k), |l.own|, start);
          hooks := ForceOpen(l.at, ls, i + 1);
          return;
        }
      }
      hooks := 0;
    }

    method ForceOpen(at: int, ls: seq<Level>, i: nat) returns (hooks: nat)
      requires Shaped(record) && Sequenced(ls) && i <= |ls|
      modifies `record, hash
      ensures Outcome(record, hash.entries, hooks) == Opened(self, old(record), old(hash.entries), at, ls, i)
      ensures Shaped(record)
      decreases |ls| - i, 1
    {
      if record.state.Open? { return 0; }
      record := ForceStep(record, at);
      hooks := 0;
      if i < |ls| { hooks := PushOne(ls, i); }
      hooks := hooks + 1;
    }
  }

  // ----- How deep it goes --------------------------------------------------------------------

  /** Only a probe past the timeout or a reset takes an open record out of Open. */
  lemma LeavesOpenIff(c: Config, r: Record, e: Event)
    requires Shaped(r) && r.state.Open?
    ensures !Step(c, r, e).state.Open? <==>
            e.Reset? || (e.Allow? && (r.lastFailure.None? || e.now - r.lastFailure.value >= c.timeout))
  {
  }

  /** How often the record leaves Open during the first n calls. */
  function Departures(c: Config, r: Record, es: seq<Event>, n: nat): nat
    requires n <= |es| && Shaped(r)
  {
    if n == 0 then 0
    else
      var before, after := After(c, r, es, n - 1), After(c, r, es, n);
      Departures(c, r, es, n - 1) + if before.state.Open? && !after.state.Open? then 1 else 0
  }

  lemma {:induction false} StaysOpen(c: Config, r: Record, es: seq<Event>, n: nat)
    requires n <= |es| && Shaped(r) && r.state.Open? && Departures(c, r, es, n) == 0
    ensures After(c, r, es, n).state.Open?
  {
    if n > 0 { StaysOpen(c, r, es, n - 1); }
  }

  /** Departures during all the pushes that an opening leads to. */
  function AllDepartures(p: Replica, r: Record, at: int, ls: seq<Level>, i: nat): nat
    requires Shaped(r) && Sequenced(ls) && i <= |ls|
    decreases |ls| - i
  {
    if r.state.Open? || i == |ls| || !Convinced(p, ForceStep(r, at), ls[i]) then 0
    else
      var l, forced := ls[i], ForceStep(r, at);
      var after := After(p.config, forced, l.own, |l.own|);
      Departures(p.config, forced, l.own, |l.own|) + AllDepartures(p, after, l.at, ls, i + 1)
  }

  /** The opening asked for by the hook does nothing exactly when it finds the record open. */
  lemma NestedIsIdleIff(p: Replica, r: Record, entries: map<string, Entry>, at: int, ls: seq<Level>, i: nat)
    requires Shaped(r) && Sequenced(ls) && i <= |ls|
    ensures Opened(p, r, entries, at, ls, i).hooks == 0 <==> r.state.Open?
    ensures r.state.Open? ==> Opened(p, r, entries, at, ls, i) == Outcome(r, entries, 0)
  {
  }

  /** Firing the hook n + 1 times takes n departures from Open. */
  lemma {:induction false} DepthNeedsDepartures(p: Replica, r: Record, entries: map<string, Entry>, at: int,
                                                ls: seq<Level>, i: nat)
    requires Shaped(r) && Sequenced(ls) && i <= |ls|
    ensures Opened(p, r, entries, at, ls, i).hooks <= 1 + AllDepartures(p, r, at, ls, i)
    decreases |ls| - i
  {
    if !r.state.Open? && i < |ls| && Convinced(p, ForceStep(r, at), ls[i]) {
      var l, forced := ls[i], ForceStep(r, at);
      var after := After(p.config, forced, l.own, |l.own|);
      if Departures(p.config, forced, l.own, |l.own|) == 0 { StaysOpen(p.config, forced, l.own, |l.own|); }
      DepthNeedsDepartures(p, after, Written(p, forced, l), l.at, ls, i + 1);
      NestedIsIdleIff(p, after, Written(p, forced, l), l.at, ls, i + 1);
    }
  }

  /** A replica that finds no entry but its own never opens again on that. */
  lemma AloneOpensOnce(p: Replica, r: Record, entries: map<string, Entry>, at: int, ls: seq<Level>, i: nat)
    requires Shaped(r) && Sequenced(ls) && i <= |ls| && (i < |ls| ==> ls[i].hash.Keys <= {p.id})
    ensures Opened(p, r, entries, at, ls, i).hooks == if r.state.Open? then 0 else 1
  {
  }

  // ----- How deep it can go ------------------------------------------------------------------

  /** The clock when the k-th opening happens: each waits for the timeout to pass. */
  function Due(p: Replica, start: nat, k: nat): (at: nat)
    ensures start <= at
  {
    if k == 0 then start else Due(p, start, k - 1) + if p.config.timeout > 0 then p.config.timeout else 0
  }

  /** A sibling has just written that it is open; a probe goes out after the timeout, and then comes the opening. */
  function Echoing(p: Replica, start: nat, k: nat): (l: Level)
    ensures Ordered(l)
  {
    var id, second, next := p.id + "'", Due(p, start, k) / NANOS, Due(p, start, k + 1);
    var l := Level([Allow(next)], 0, map[id := Entry(Open, 0, second)], [Visit(id, 0)], second, second, next);
    assert l.visits[0].id == id;
    l
  }

  /** From the opening at `at` on, the clocks of the levels do not go back. */
  predicate Timely(ls: seq<Level>, at: nat, i: nat)
    requires i <= |ls|
    decreases |ls| - i
  {
    i < |ls| ==>
      && at / NANOS <= ls[i].stamp <= ls[i].now
      && (forall e :: e in ls[i].own ==> e.Allow? && at <= e.now && ls[i].now <= e.now / NANOS && e.now <= ls[i].at)
      && at <= ls[i].at && Timely(ls, ls[i].at, i + 1)
  }

  lemma EchoingConvinces(p: Replica, r: Record, start: nat, k: nat)
    requires Shaped(r) && p.ttl >= 0 && (r.closedAt.Some? ==> r.closedAt.value <= start)
    ensures Convinced(p, r, Echoing(p, start, k))
  {
    var l := Echoing(p, start, k);
    assert |p.id + "'"| != |p.id|;
    assert After(p.config, r, l.own, 0) == r;
    assert Convinces(p, r, l, 0);
  }

  /** The probe takes the record that was just opened out of Open. */
  lemma EchoingDeparts(p: Replica, r: Record, start: nat, k: nat)
    requires Shaped(r) && !r.state.Open?
    ensures var own, forced := Echoing(p, start, k).own, ForceStep(r, Due(p, start, k));
            && |own| == 1 && Departures(p.config, forced, own, 1) == 1
            && !After(p.config, forced, own, 1).state.Open? && After(p.config, forced, own, 1).closedAt == r.closedAt
  {
    var own, forced := Echoing(p, start, k).own, ForceStep(r, Due(p, start, k));
    assert After(p.config, forced, own, 0) == forced && Departures(p.config, forced, own, 0) == 0;
    assert After(p.config, forced, own, 1) == Step(p.config, forced, own[0]);
  }

  function Echoes(p: Replica, start: nat, n: nat): (ls: seq<Level>)
    ensures Sequenced(ls)
  {
    seq(n, k requires 0 <= k => Echoing(p, start, k))
  }

  lemma {:induction false} EchoesTimely(p: Replica, start: nat, n: nat, i: nat)
    requires i <= n
    ensures Timely(Echoes(p, start, n), Due(p, start, i), i)
    decreases n - i
  {
    if i < n {
      assert Echoes(p, start, n)[i] == Echoing(p, start, i);
      EchoesTimely(p, start, n, i + 1);
    }
  }

  /** One level deeper. */
  lemma Deeper(p: Replica, r: Record, entries: map<string, Entry>, at: int, ls: seq<Level>, i: nat)
    requires Shaped(r) && !r.state.Open? && Sequenced(ls) && i < |ls| && Convinced(p, ForceStep(r, at), ls[i])
    ensures var l, forced := ls[i], ForceStep(r, at);
            var after := After(p.config, forced, l.own, |l.own|);
            && Opened(p, r, entries, at, ls, i).hooks ==
               Opened(p, after, Written(p, forced, l), l.at, ls, i + 1).hooks + 1
            && AllDepartures(p, r, at, ls, i) ==
               Departures(p.config, forced, l.own, |l.own|) + AllDepartures(p, after, l.at, ls, i + 1)
  {
  }

  ghost predicate Recovered(r: Record, start: int) {
    Shaped(r) && !r.state.Open? && (r.closedAt.Some? ==> r.closedAt.value <= start)
  }

  ghost predicate AllEchoing(p: Replica, start: nat, ls: seq<Level>) {
    forall k :: 0 <= k < |ls| ==> ls[k] == Echoing(p, start, k)
  }

  /** From the opening at level i on there are so many hooks, and one departure less. */
  ghost predicate Fires(p: Replica, r: Record, start: nat, ls: seq<Level>, i: nat, n: nat)
    requires Shaped(r) && Sequenced(ls) && i <= |ls|
  {
    && (forall entries :: Opened(p, r, entries, Due(p, start, i), ls, i).hooks == n)
    && AllDepartures(p, r, Due(p, start, i), ls, i) == n - 1
  }

  lemma LastFires(p: Replica, r: Record, start: nat, ls: seq<Level>)
    requires Recovered(r, start) && Sequenced(ls)
    ensures Fires(p, r, start, ls, |ls|, 1)
  {
  }

  /** The record after a level of the echo. */
  ghost function Echoed(p: Replica, r: Record, start: nat, k: nat): (after: Record)
    requires Recovered(r, start)
    ensures Recovered(after, start)
  {
    EchoingDeparts(p, r, start, k);
    After(p.config, ForceStep(r, Due(p, start, k)), Echoing(p, start, k).own, 1)
  }

  /** A level of the echo leads to the next with one departure and one more hook. */
  lemma FiresMore(p: Replica, r: Record, start: nat, ls: seq<Level>, i: nat, n: nat)
    requires p.ttl >= 0 && Recovered(r, start) && Sequenced(ls) && i < |ls| && ls[i] == Echoing(p, start, i)
    requires Fires(p, Echoed(p, r, start, i), start, ls, i + 1, n)
    ensures Fires(p, r, start, ls, i, n + 1)
  {
    var l, forced := Echoing(p, start, i), ForceStep(r, Due(p, start, i));
    EchoingConvinces(p, forced, start, i);
    EchoingDeparts(p, r, start, i);
    forall entries ensures Opened(p, r, entries, Due(p, start, i), ls, i).hooks == n + 1 {
      Deeper(p, r, entries, Due(p, start, i), ls, i);
    }
    Deeper(p, r, map[], Due(p, start, i), ls, i);
  }

  lemma {:induction false} EchoesNest(p: Replica, r: Record, start: nat, ls: seq<Level>, i: nat)
    requires i <= |ls| && p.ttl >= 0 && Recovered(r, start) && Sequenced(ls) && AllEchoing(p, start, ls)
    ensures Fires(p, r, start, ls, i, |ls| - i + 1)
    decreases |ls| - i
  {
    if i == |ls| {
      LastFires(p, r, start, ls);
    } else {
      EchoesNest(p, Echoed(p, r, start, i), start, ls, i + 1);
      FiresMore(p, r, start, ls, i, |ls| - i);
    }
  }

  /** And with n departures it does get that deep, for every n, with clocks that never go back. */
  lemma DepthIsReached(p: Replica, r: Record, entries: map<string, Entry>, start: nat, n: nat)
    requires p.ttl >= 0 && Recovered(r, start)
    ensures var ls := Echoes(p, start, n);
            && Opened(p, r, entries, start, ls, 0).hooks == n + 1
            && AllDepartures(p, r, start, ls, 0) == n
            && Timely(ls, start, 0)
  {
    EchoesNest(p, r, start, Echoes(p, start, n), 0);
    EchoesTimely(p, start, n, 0);
  }
}
