/**
  A request at the rate limiter in the steps between which others may come (limiter.go): it reads the
  clock, picks its key's limiter under the map's lock, and reserves under the limiter's own. Meanwhile
  the key may be evicted, and picked anew by somebody else.
*/
module InterleavedLimiting {
  import opened Gcra
  import opened Options
  import opened RateLimiting

  /** A request under way, with the time it read. */
  datatype Call = Clocked(key: string, now: int) | Picked(key: string, now: int, limiter: nat)

  datatype Slot = Slot(limiter: nat, lastSeen: int)

  /** Limiters are numbered in the order they are made; one without a TAT has not admitted anything. */
  datatype World = World(clock: int, calls: map<nat, Call>, slots: map<string, Slot>, made: nat, tats: map<nat, int>)

  function TatOf(w: World, limiter: nat): Option<int> {
    if limiter in w.tats then Some(w.tats[limiter]) else None
  }

  /** Evicting is what a sweep, or making room, does to one idle key; its clock was read before its lock. */
  datatype Action = Tick(now: int) | ReadClock(call: nat, key: string) | Pick(call: nat) | Reserve(call: nat)
                  | Evict(key: string, now: int)

  /** No request takes longer than `patience` from its reading of the clock to its reservation. */
  predicate Enabled(c: Settings, patience: nat, w: World, a: Action) {
    match a
    case Tick(now) => w.clock <= now && forall t :: t in w.calls ==> now <= w.calls[t].now + patience
    case ReadClock(t, _) => t !in w.calls
    case Pick(t) => t in w.calls && w.calls[t].Clocked?
    case Reserve(t) => t in w.calls && w.calls[t].Picked?
    case Evict(key, now) => key in w.slots && now <= w.clock && now - w.slots[key].lastSeen > c.idleTtl
  }

  function PickedBy(w: World, t: nat): World
    requires t in w.calls && w.calls[t].Clocked?
  {
    var key, now := w.calls[t].key, w.calls[t].now;
    var known := key in w.slots;
    var limiter := if known then w.slots[key].limiter else w.made;
    w.(calls := w.calls[t := Picked(key, now, limiter)], slots := w.slots[key := Slot(limiter, now)],
       made := if known then w.made else w.made + 1)
  }

  function Answer(c: Settings, w: World, t: nat): (Option<int>, Verdict)
    requires t in w.calls && w.calls[t].Picked?
  {
    Reserved(c.rate, TatOf(w, w.calls[t].limiter), w.calls[t].now)
  }

  function ReservedBy(c: Settings, w: World, t: nat): World
    requires t in w.calls && w.calls[t].Picked?
  {
    var tat := Answer(c, w, t).0;
    w.(calls := w.calls - {t}, tats := if tat.None? then w.tats else w.tats[w.calls[t].limiter := tat.value])
  }

  function Effect(c: Settings, patience: nat, w: World, a: Action): World
    requires Enabled(c, patience, w, a)
  {
    match a
    case Tick(now) => w.(clock := now)
    case ReadClock(t, key) => w.(calls := w.calls[t := Clocked(key, w.clock)])
    case Pick(t) => PickedBy(w, t)
    case Reserve(t) => ReservedBy(c, w, t)
    case Evict(key, _) => w.(slots := w.slots - {key})
  }

  /** Any interleaving of any requests and evictions, the latest action outermost. */
  datatype Trace = Begin(clock: int) | Then(past: Trace, act: Action)

  /** Where a trace leads; an action that is not enabled does nothing. */
  function Reached(c: Settings, patience: nat, trace: Trace): World {
    match trace
    case Begin(clock) => World(clock, map[], map[], 0, map[])
    case Then(past, a) =>
      var w := Reached(c, patience, past);
      if Enabled(c, patience, w, a) then Effect(c, patience, w, a) else w
  }

  predicate Asks(c: Settings, patience: nat, w: World, a: Action, key: string) {
    a.Reserve? && Enabled(c, patience, w, a) && w.calls[a.call].key == key
  }

  /** The times that a key's requests have read, in the order of their reservations. */
  function Readings(c: Settings, patience: nat, trace: Trace, key: string): seq<int> {
    if trace.Begin? then []
    else
      var w, before := Reached(c, patience, trace.past), Readings(c, patience, trace.past, key);
      if Asks(c, patience, w, trace.act, key) then before + [w.calls[trace.act.call].now] else before
  }

  /** The idle time covers a full backlog and two delays. */
  ghost predicate Generous(c: Settings, patience: nat) {
    && 1 <= c.rate.burst && c.idleTtl + 1 <= TWO_63 && 2 * patience <= c.idleTtl
    && c.rate.burst * c.rate.emission + 2 * patience <= c.idleTtl + 1
  }

  // ----- What every action keeps -------------------------------------------------------------

  /** No request is overdue. */
  ghost predicate Prompt(patience: nat, w: World) {
    forall t :: t in w.calls ==> w.calls[t].now <= w.clock <= w.calls[t].now + patience
  }

  /** Every limiter that somebody is about to use is the one its key has. */
  ghost predicate Housed(patience: nat, w: World) {
    forall t :: t in w.calls && w.calls[t].Picked? ==>
      && w.calls[t].key in w.slots
      && w.slots[w.calls[t].key].limiter == w.calls[t].limiter
      && w.calls[t].now <= w.slots[w.calls[t].key].lastSeen + patience
  }

  /** No two keys have the same limiter. */
  ghost predicate Separate(w: World) {
    && (forall k :: k in w.slots ==> w.slots[k].limiter < w.made)
    && (forall l :: l in w.tats ==> l < w.made)
    && (forall j, k :: j in w.slots && k in w.slots && j != k ==> w.slots[j].limiter != w.slots[k].limiter)
  }

  /** Limiters are numbered from 0 on. */
  ghost predicate Numbered(w: World) {
    && (forall k :: k in w.slots ==> w.slots[k].limiter < w.made)
    && (forall t :: t in w.calls && w.calls[t].Picked? ==> w.calls[t].limiter < w.made)
    && (forall l :: l in w.tats ==> l < w.made)
  }

  lemma {:induction false} TraceNumbered(c: Settings, patience: nat, trace: Trace)
    ensures Numbered(Reached(c, patience, trace))
  {
    if trace.Then? { TraceNumbered(c, patience, trace.past); }
  }

  ghost predicate Inv(patience: nat, w: World) { Prompt(patience, w) && Housed(patience, w) && Separate(w) }

  /** An idle key has no request under way: one that picked its limiter would be overdue. */
  lemma IdleIsUnused(c: Settings, patience: nat, w: World, key: string, now: int)
    requires Inv(patience, w) && 2 * patience <= c.idleTtl && Enabled(c, patience, w, Evict(key, now))
    ensures forall t :: t in w.calls && w.calls[t].Picked? ==> w.calls[t].key != key
  {
  }

  lemma KeepsInv(c: Settings, patience: nat, w: World, a: Action)
    requires Inv(patience, w) && 2 * patience <= c.idleTtl && Enabled(c, patience, w, a)
    ensures Inv(patience, Effect(c, patience, w, a))
  {
    if a.Evict? { IdleIsUnused(c, patience, w, a.key, a.now); }
  }

  ghost predicate Over(own: Option<int>, t: int) { own.None? || own.value <= t }

  /**
    How the limiter of a key, if it has one, stands to a limiter of its own that nobody evicts: they
    are equal, or the one is new and the other has nothing left to remember.
  */
  ghost predicate Current(c: Settings, patience: nat, w: World, key: string, own: Option<int>) {
    var backlog := c.rate.burst * c.rate.emission;
    && Over(own, w.clock + backlog)
    && (key !in w.slots ==> Over(own, w.clock - patience))
    && (key in w.slots ==>
          && Over(own, w.slots[key].lastSeen + patience + backlog)
          && (TatOf(w, w.slots[key].limiter) == own
              || (TatOf(w, w.slots[key].limiter).None? && Over(own, w.clock - patience))))
  }

  lemma BacklogFrom(p: Rate, tat: Option<int>, now: int, limit: int)
    requires 1 <= p.burst && Over(tat, limit) && now + p.burst * p.emission <= limit
    ensures Over(Local(p, tat, now).0, limit)
  {
    assert p.emission * (p.burst - 1) == p.burst * p.emission - p.emission;
  }

  /** A reservation has the verdict of the key's own limiter, and both are equal afterwards or unchanged. */
  lemma ReservingKeepsCurrent(c: Settings, patience: nat, w: World, t: nat, own: Option<int>)
    requires Generous(c, patience) && Inv(patience, w) && t in w.calls && w.calls[t].Picked?
    requires Current(c, patience, w, w.calls[t].key, own)
    ensures Answer(c, w, t).1 == Local(c.rate, own, w.calls[t].now).1
    ensures Current(c, patience, ReservedBy(c, w, t), w.calls[t].key, Local(c.rate, own, w.calls[t].now).0)
  {
    var key, now := w.calls[t].key, w.calls[t].now;
    var backlog := c.rate.burst * c.rate.emission;
    CoveredFits(c, TatOf(w, w.calls[t].limiter), now);
    if Over(own, now) { FreshAgrees(c.rate, own, now); }
    BacklogFrom(c.rate, own, now, w.clock + backlog);
    BacklogFrom(c.rate, own, now, w.slots[key].lastSeen + patience + backlog);
  }

  lemma OthersKeepCurrent(c: Settings, patience: nat, w: World, a: Action, key: string, own: Option<int>)
    requires Generous(c, patience) && Inv(patience, w) && Enabled(c, patience, w, a)
    requires Current(c, patience, w, key, own) && !Asks(c, patience, w, a, key)
    ensures Current(c, patience, Effect(c, patience, w, a), key, own)
  {
  }

  /** Over every trace: the invariant, and that each key's limiter is as good as its own. */
  lemma {:induction false} TraceKeeps(c: Settings, patience: nat, trace: Trace, key: string)
    requires Generous(c, patience)
    ensures Inv(patience, Reached(c, patience, trace))
    ensures Current(c, patience, Reached(c, patience, trace), key, Private(c, Readings(c, patience, trace, key)))
  {
    if trace.Then? {
      TraceKeeps(c, patience, trace.past, key);
      var w, a, before := Reached(c, patience, trace.past), trace.act, Readings(c, patience, trace.past, key);
      if Enabled(c, patience, w, a) {
        KeepsInv(c, patience, w, a);
        if Asks(c, patience, w, a, key) {
          PrivateStep(c, before, w.calls[a.call].now);
          ReservingKeepsCurrent(c, patience, w, a.call, Private(c, before));
        } else {
          OthersKeepCurrent(c, patience, w, a, key, Private(c, before));
        }
      }
    }
  }

  predicate Ready(c: Settings, patience: nat, trace: Trace, t: nat) {
    var w := Reached(c, patience, trace);
    t in w.calls && w.calls[t].Picked?
  }

  /** The verdict on a request that is about to reserve is that of its key's own limiter. */
  ghost predicate Faithfully(c: Settings, patience: nat, trace: Trace, t: nat)
    requires Ready(c, patience, trace, t)
  {
    var w := Reached(c, patience, trace);
    var before := Readings(c, patience, trace, w.calls[t].key);
    Answer(c, w, t).1 == VerdictAt(c.rate, before + [w.calls[t].now], |before|)
  }

  /**
    Eviction stays unobserved under every interleaving, if the idle time covers a full backlog and
    twice what a request may take: each verdict is that of a limiter that nobody ever evicts, on the
    times that the key's requests read in the order of their reservations.
  */
  lemma InterleavingIsUnobservable(c: Settings, patience: nat, trace: Trace, t: nat)
    requires Generous(c, patience) && Ready(c, patience, trace, t)
    ensures Faithfully(c, patience, trace, t)
  {
    var call := Reached(c, patience, trace).calls[t];
    var before := Readings(c, patience, trace, call.key);
    TraceKeeps(c, patience, trace, call.key);
    PrivateStep(c, before, call.now);
    ReservingKeepsCurrent(c, patience, Reached(c, patience, trace), t, Private(c, before));
  }

  // ----- The bound cannot be improved --------------------------------------------------------

  /** The first n numbers start requests for one key. */
  function Starts(trace: Trace, n: nat): Trace {
    if n == 0 then trace else Then(Starts(trace, n - 1), ReadClock(n - 1, ""))
  }

  /** And finish them, one after the other. */
  function Finishes(trace: Trace, n: nat): Trace {
    if n == 0 then trace else Then(Then(Finishes(trace, n - 1), Pick(n - 1)), Reserve(n - 1))
  }

  lemma {:induction false} Started(c: Settings, patience: nat, trace: Trace, n: nat)
    requires forall t :: t in Reached(c, patience, trace).calls ==> n <= t
    ensures var w, v := Reached(c, patience, trace), Reached(c, patience, Starts(trace, n));
            && v == w.(calls := v.calls)
            && (forall t: nat :: t in v.calls <==> t < n || t in w.calls)
            && (forall t: nat :: t in v.calls ==> v.calls[t] == if t < n then Clocked("", w.clock) else w.calls[t])
    ensures Readings(c, patience, Starts(trace, n), "") == Readings(c, patience, trace, "")
  {
    if n > 0 { Started(c, patience, trace, n - 1); }
  }

  /** The limiter that a key has, or would be given. */
  function LimiterOf(w: World): nat { if "" in w.slots then w.slots[""].limiter else w.made }

  /** From w to v one request that had read `now` has been finished. */
  ghost predicate OneDone(c: Settings, w: World, v: World, t: nat, now: int) {
    && v.clock == w.clock && v.calls == w.calls - {t}
    && "" in v.slots && v.slots[""] == Slot(LimiterOf(w), now)
    && TatOf(v, LimiterOf(w)) == Reserved(c.rate, TatOf(w, LimiterOf(w)), now).0
  }

  lemma FinishOne(c: Settings, patience: nat, trace: Trace, t: nat, now: int)
    requires var w := Reached(c, patience, trace); t in w.calls && w.calls[t] == Clocked("", now)
    ensures OneDone(c, Reached(c, patience, trace),
                    Reached(c, patience, Then(Then(trace, Pick(t)), Reserve(t))), t, now)
  {
    var w, u := Reached(c, patience, trace), Reached(c, patience, Then(trace, Pick(t)));
    assert u == PickedBy(w, t);
  }

  lemma ReadOne(c: Settings, patience: nat, trace: Trace, t: nat, now: int)
    requires var w := Reached(c, patience, trace); t in w.calls && w.calls[t] == Clocked("", now)
    ensures Readings(c, patience, Then(Then(trace, Pick(t)), Reserve(t)), "") ==
            Readings(c, patience, trace, "") + [now]
  {
    var w, u := Reached(c, patience, trace), Reached(c, patience, Then(trace, Pick(t)));
    assert u == PickedBy(w, t);
  }

  /** The requests up to n have read the same time. */
  ghost predicate Waiting(w: World, n: nat, now: int) {
    forall t: nat :: t < n ==> t in w.calls && w.calls[t] == Clocked("", now)
  }

  /** From w to v, n of them have been finished. */
  ghost predicate Done(w: World, v: World, n: nat, now: int) {
    && v.clock == w.clock && LimiterOf(v) == LimiterOf(w)
    && (n > 0 ==> "" in v.slots && v.slots[""].lastSeen == now)
    && (forall t: nat :: t in v.calls <==> n <= t && t in w.calls)
    && (forall t: nat :: t in v.calls ==> v.calls[t] == w.calls[t])
  }

  lemma DoneOneMore(c: Settings, w: World, u: World, v: World, n: nat, now: int)
    requires Done(w, u, n, now) && OneDone(c, u, v, n, now)
    ensures Done(w, v, n + 1, now)
  {
  }

  lemma {:induction false} Finished(c: Settings, patience: nat, trace: Trace, n: nat, now: int)
    requires Waiting(Reached(c, patience, trace), n, now)
    ensures Done(Reached(c, patience, trace), Reached(c, patience, Finishes(trace, n)), n, now)
  {
    if n > 0 {
      var w, last := Reached(c, patience, trace), Finishes(trace, n - 1);
      Finished(c, patience, trace, n - 1, now);
      FinishOne(c, patience, last, n - 1, now);
      DoneOneMore(c, w, Reached(c, patience, last), Reached(c, patience, Finishes(trace, n)), n - 1, now);
    }
  }

  lemma {:induction false} FinishedReadings(c: Settings, patience: nat, trace: Trace, n: nat, now: int)
    requires Waiting(Reached(c, patience, trace), n, now)
    ensures Readings(c, patience, Finishes(trace, n), "") == Readings(c, patience, trace, "") + seq(n, _ => now)
  {
    if n > 0 {
      FinishedReadings(c, patience, trace, n - 1, now);
      Finished(c, patience, trace, n - 1, now);
      ReadOne(c, patience, Finishes(trace, n - 1), n - 1, now);
      assert seq(n, _ => now) == seq(n - 1, _ => now) + [now];
    }
  }

  /** The TAT of a limiter that is new, after n requests of a burst. */
  function Nth(c: Settings, n: nat, now: int): Option<int> {
    if n == 0 then None else Some(now + n * c.rate.emission)
  }

  lemma NthAdmitted(c: Settings, n: nat, now: int)
    requires n < c.rate.burst && Tolerance(c.rate) < TWO_63
    ensures Reserved(c.rate, Nth(c, n, now), now) == (Nth(c, n + 1, now), Admitted)
  {
    Multiples(c.rate.emission, n, c.rate.burst - 1);
    ReservedIsLocal(c.rate, Nth(c, n, now), now);
  }

  ghost predicate Holds(c: Settings, w: World, n: nat, now: int) { TatOf(w, LimiterOf(w)) == Nth(c, n, now) }

  lemma HoldsOneMore(c: Settings, w: World, v: World, n: nat, now: int)
    requires n < c.rate.burst && Tolerance(c.rate) < TWO_63
    requires OneDone(c, w, v, n, now) && Holds(c, w, n, now)
    ensures Holds(c, v, n + 1, now)
  {
    NthAdmitted(c, n, now);
  }

  lemma {:induction false} FreshTat(c: Settings, patience: nat, trace: Trace, n: nat, now: int)
    requires n <= c.rate.burst && Tolerance(c.rate) < TWO_63
    requires Waiting(Reached(c, patience, trace), n, now) && Holds(c, Reached(c, patience, trace), 0, now)
    ensures Holds(c, Reached(c, patience, Finishes(trace, n)), n, now)
  {
    if n > 0 {
      var last := Finishes(trace, n - 1);
      FreshTat(c, patience, trace, n - 1, now);
      Finished(c, patience, trace, n - 1, now);
      FinishOne(c, patience, last, n - 1, now);
      HoldsOneMore(c, Reached(c, patience, last), Reached(c, patience, Finishes(trace, n)), n - 1, now);
    }
  }

  /** So the whole burst is admitted. */
  lemma FreshAdmits(c: Settings, patience: nat, trace: Trace, n: nat, now: int)
    requires n < c.rate.burst && Tolerance(c.rate) < TWO_63
    requires Waiting(Reached(c, patience, trace), n + 1, now) && Holds(c, Reached(c, patience, trace), 0, now)
    ensures var w := Reached(c, patience, Then(Finishes(trace, n), Pick(n)));
            && n in w.calls && w.calls[n].Picked? && w.calls[n].key == "" && w.calls[n].now == now
            && Answer(c, w, n).1 == Admitted
  {
    var last := Finishes(trace, n);
    Finished(c, patience, trace, n, now);
    FreshTat(c, patience, trace, n, now);
    NthAdmitted(c, n, now);
    assert Reached(c, patience, Then(last, Pick(n))) == PickedBy(Reached(c, patience, last), n);
  }

  lemma Multiples(e: nat, m: nat, n: nat)
    requires m <= n
    ensures m * e <= n * e && (m + 1) * e == m * e + e
  {
  }

  // A request reads the clock and is late; meanwhile a whole burst is admitted.

  function Late(patience: nat, burst: nat): Trace { Then(Then(Begin(0), ReadClock(burst, "")), Tick(patience)) }

  lemma LateWorld(c: Settings, patience: nat, burst: nat)
    ensures Reached(c, patience, Late(patience, burst)) ==
            World(patience, map[burst := Clocked("", 0)], map[], 0, map[])
    ensures Readings(c, patience, Late(patience, burst), "") == []
  {
    var begun := Then(Begin(0), ReadClock(burst, ""));
    assert Reached(c, patience, begun) == World(0, map[burst := Clocked("", 0)], map[], 0, map[]);
    assert Readings(c, patience, begun, "") == [];
  }

  function Rush(patience: nat, burst: nat): Trace { Finishes(Starts(Late(patience, burst), burst), burst) }

  lemma RushWorld(c: Settings, patience: nat, burst: nat)
    ensures var w := Reached(c, patience, Rush(patience, burst));
            && w.clock == patience && burst in w.calls && w.calls[burst] == Clocked("", 0)
            && forall t :: t in w.calls ==> t == burst
    ensures Readings(c, patience, Rush(patience, burst), "") == seq(burst, _ => patience as int)
  {
    LateWorld(c, patience, burst);
    Started(c, patience, Late(patience, burst), burst);
    Finished(c, patience, Starts(Late(patience, burst), burst), burst, patience);
    FinishedReadings(c, patience, Starts(Late(patience, burst), burst), burst, patience);
  }

  /** The late one is refused, but sets the time that the key was seen back. */
  function Crowd(patience: nat, burst: nat): Trace {
    Then(Then(Rush(patience, burst), Pick(burst)), Reserve(burst))
  }

  lemma CrowdWorld(c: Settings, patience: nat, burst: nat)
    ensures var w := Reached(c, patience, Crowd(patience, burst));
            w.clock == patience && w.calls == map[] && "" in w.slots && w.slots[""].lastSeen == 0
    ensures Readings(c, patience, Crowd(patience, burst), "") == seq(burst, _ => patience as int) + [0]
  {
    RushWorld(c, patience, burst);
    FinishOne(c, patience, Rush(patience, burst), burst, 0);
    ReadOne(c, patience, Rush(patience, burst), burst, 0);
  }

  // The key is idle before the burst is forgotten; requests that read the clock just in time find it evicted.

  function SweepTime(c: Settings, patience: nat): nat { if patience <= c.idleTtl then c.idleTtl + 1 else patience }

  function JustInTime(c: Settings, patience: nat): nat {
    if 2 * patience <= c.idleTtl + 1 then c.idleTtl + 1 - patience else patience
  }

  function Overtaken(c: Settings, patience: nat): Trace
    requires 1 <= c.rate.burst
  {
    var before := Then(Crowd(patience, c.rate.burst), Tick(JustInTime(c, patience)));
    var sweep := SweepTime(c, patience);
    Then(Then(Starts(before, c.rate.burst), Tick(sweep)), Evict("", sweep))
  }

  lemma OvertakenWorld(c: Settings, patience: nat)
    requires 1 <= c.rate.burst
    ensures var w, now := Reached(c, patience, Overtaken(c, patience)), JustInTime(c, patience);
            Waiting(w, c.rate.burst, now) && Holds(c, w, 0, now)
    ensures Readings(c, patience, Overtaken(c, patience), "") == seq(c.rate.burst, _ => patience as int) + [0]
  {
    var crowd, burst, now := Crowd(patience, c.rate.burst), c.rate.burst, JustInTime(c, patience);
    var before, sweep := Then(crowd, Tick(now)), SweepTime(c, patience);
    var waiting := Then(Starts(before, burst), Tick(sweep));
    CrowdWorld(c, patience, burst);
    assert Reached(c, patience, before) == Reached(c, patience, crowd).(clock := now);
    Started(c, patience, before, burst);
    var w := Reached(c, patience, Starts(before, burst));
    assert Reached(c, patience, waiting) == w.(clock := sweep);
    assert Reached(c, patience, Overtaken(c, patience)) == w.(clock := sweep, slots := w.slots - {""});
    TraceNumbered(c, patience, Overtaken(c, patience));
  }

  // What the key's own limiter makes of these readings.

  lemma {:induction false} OwnBurst(c: Settings, n: nat, now: int)
    requires n <= c.rate.burst && Tolerance(c.rate) < TWO_63
    ensures Private(c, seq(n, _ => now)) == Nth(c, n, now)
  {
    if n > 0 {
      OwnBurst(c, n - 1, now);
      assert seq(n, _ => now) == seq(n - 1, _ => now) + [now];
      PrivateStep(c, seq(n - 1, _ => now), now);
      ReservedIsLocal(c.rate, Nth(c, n - 1, now), now);
      NthAdmitted(c, n - 1, now);
    }
  }

  lemma OwnCrowd(c: Settings, patience: nat)
    requires 1 <= c.rate.burst && 1 <= c.rate.emission && Tolerance(c.rate) < TWO_63
    ensures Private(c, seq(c.rate.burst, _ => patience as int) + [0]) ==
            Some(patience + c.rate.burst * c.rate.emission)
  {
    OwnBurst(c, c.rate.burst, patience);
    PrivateStep(c, seq(c.rate.burst, _ => patience as int), 0);
    Multiples(c.rate.emission, c.rate.burst - 1, c.rate.burst);
  }

  ghost predicate OwnAdmits(c: Settings, before: seq<int>, now: int, i: nat) {
    Local(c.rate, Private(c, before + seq(i, _ => now)), now).1 == Admitted
  }

  /** As long as all are admitted, the backlog grows by one emission each. */
  lemma {:induction false} OwnBacklog(c: Settings, before: seq<int>, tat: int, now: int, n: nat)
    requires Private(c, before) == Some(tat) && now < tat && 1 <= c.rate.burst
    requires forall i: nat :: i < n ==> OwnAdmits(c, before, now, i)
    ensures Private(c, before + seq(n, _ => now)) == Some(tat + n * c.rate.emission)
  {
    if n == 0 {
      assert before + seq(n, _ => now) == before;
    } else {
      OwnBacklog(c, before, tat, now, n - 1);
      assert OwnAdmits(c, before, now, n - 1);
      assert before + seq(n, _ => now) == (before + seq(n - 1, _ => now)) + [now];
      PrivateStep(c, before + seq(n - 1, _ => now), now);
      Multiples(c.rate.emission, n - 1, n);
    }
  }

  lemma FullRefuses(p: Rate, tat: int, now: int)
    requires 1 <= p.burst && now < tat
    ensures Local(p, Some(tat + (p.burst - 1) * p.emission), now).1.Refused?
  {
    Multiples(p.emission, 0, p.burst - 1);
  }

  /** The own limiter refuses one of the burst at the latest. */
  lemma OwnRefuses(c: Settings, before: seq<int>, tat: int, now: int) returns (i: nat)
    requires 1 <= c.rate.burst && Private(c, before) == Some(tat) && now < tat
    ensures i < c.rate.burst && !OwnAdmits(c, before, now, i)
  {
    if forall j: nat :: j < c.rate.burst - 1 ==> OwnAdmits(c, before, now, j) {
      i := c.rate.burst - 1;
      OwnBacklog(c, before, tat, now, i);
      FullRefuses(c.rate, tat, now);
    } else {
      i :| i < c.rate.burst - 1 && !OwnAdmits(c, before, now, i);
    }
  }

  /** With less time than that, some run shows that the limiter was evicted. */
  lemma Observed(c: Settings, patience: nat) returns (trace: Trace, t: nat)
    requires 1 <= c.rate.burst && 1 <= c.rate.emission && Tolerance(c.rate) < TWO_63
    requires c.idleTtl + 1 < c.rate.burst * c.rate.emission + 2 * patience
    ensures Ready(c, patience, trace, t) && !Faithfully(c, patience, trace, t)
  {
    var now, start := JustInTime(c, patience), Overtaken(c, patience);
    OwnCrowd(c, patience);
    Multiples(c.rate.emission, 1, c.rate.burst);
    OvertakenWorld(c, patience);
    t := OwnRefuses(c, Readings(c, patience, start, ""), patience + c.rate.burst * c.rate.emission, now);
    var last := Finishes(start, t);
    trace := Then(last, Pick(t));
    FreshAdmits(c, patience, start, t, now);
    FinishedReadings(c, patience, start, t, now);
    PrivateStep(c, Readings(c, patience, last, ""), now);
    assert Readings(c, patience, trace, "") == Readings(c, patience, last, "");
  }

  ghost predicate AlwaysFaithful(c: Settings, patience: nat) {
    forall trace, t :: Ready(c, patience, trace, t) ==> Faithfully(c, patience, trace, t)
  }

  /** Exactly when eviction stays unobserved. */
  lemma UnobservedIff(c: Settings, patience: nat)
    requires 1 <= c.rate.burst && 1 <= c.rate.emission && Tolerance(c.rate) < TWO_63
    requires c.idleTtl + 1 <= TWO_63
    ensures AlwaysFaithful(c, patience) <==> c.rate.burst * c.rate.emission + 2 * patience <= c.idleTtl + 1
  {
    if c.rate.burst * c.rate.emission + 2 * patience <= c.idleTtl + 1 {
      Multiples(c.rate.emission, 1, c.rate.burst);
      forall trace, t | Ready(c, patience, trace, t) ensures Faithfully(c, patience, trace, t) {
        InterleavingIsUnobservable(c, patience, trace, t);
      }
    } else {
      var trace, t := Observed(c, patience);
    }
  }
}
