/**
  The per-key limiter map of limiter.go on the GCRA path: lookup or insert, capacity
  management, idle eviction, and why forgetting a key cannot be observed.
*/
module RateLimiting {
  import opened Gcra
  import opened Options

  datatype Entry = Entry(tat: Option<int>, lastSeen: int)

  type Entries = map<string, Entry>

  datatype Settings = Settings(rate: Rate, globalRate: Rate, idleTtl: nat, maxEntries: int)

  datatype Scope = Unscoped | Global | PerKey

  /** The entries that have been used within the idle time. */
  function Live(m: Entries, idle: nat, now: int): Entries {
    map k | k in m && now - m[k].lastSeen <= idle :: m[k]
  }

  function Touch(rate: Rate, m: Entries, key: string, now: int): (Entries, Verdict) {
    var r := Reserved(rate, if key in m then m[key].tat else None, now);
    (m[key := Entry(r.0, now)], r.1)
  }

  /** What making room may leave: everything, the live entries, or those less one oldest. */
  ghost predicate RoomMade(c: Settings, m: Entries, now: int, m': Entries) {
    var live := Live(m, c.idleTtl, now);
    if c.maxEntries <= 0 || |m| < c.maxEntries then m' == m
    else if |live| < c.maxEntries then m' == live
    else exists victim :: IsOldest(live, victim) && m' == live - {victim}
  }

  ghost predicate IsOldest(m: Entries, victim: string) {
    victim in m && forall k :: k in m ==> m[victim].lastSeen <= m[k].lastSeen
  }

  /** A named rule has its own rate and its own map of limiters, which has no bound. */
  datatype Rule = Rule(rate: Rate, limiters: Entries)

  function SweptRules(rules: map<string, Rule>, idle: nat, now: int): map<string, Rule> {
    map name | name in rules :: rules[name].(limiters := Live(rules[name].limiters, idle, now))
  }

  /** Drops the idle entries of a map, in any order. */
  method DropIdle(m: Entries, idle: nat, now: int) returns (live: Entries)
    ensures live == Live(m, idle, now)
  {
    live := m;
    var todo := m.Keys;
    while todo != {}
      invariant todo <= live.Keys <= m.Keys
      invariant forall k :: k in m ==> (k in live <==> k in todo || now - m[k].lastSeen <= idle)
      invariant forall k :: k in live ==> live[k] == m[k]
      decreases |todo|
    {
      var key :| key in todo;
      todo := todo - {key};
      if now - live[key].lastSeen > idle { live := live - {key}; }
    }
  }

  /** An entry that no other has been seen before. */
  method Oldest(m: Entries) returns (oldest: string)
    requires m != map[]
    ensures IsOldest(m, oldest)
  {
    var todo := m.Keys;
    oldest :| oldest in todo;
    todo := todo - {oldest};
    while todo != {}
      invariant todo <= m.Keys && oldest in m
      invariant forall k :: k in m.Keys - todo ==> m[oldest].lastSeen <= m[k].lastSeen
      decreases |todo|
    {
      var key :| key in todo;
      todo := todo - {key};
      if m[key].lastSeen < m[oldest].lastSeen { oldest := key; }
    }
  }

  class RateLimiter {
    const settings: Settings
    var limiters: Entries
    var global: Option<int>
    var rules: map<string, Rule>

    constructor (settings: Settings)
      ensures this.settings == settings && limiters == map[] && global == None && rules == map[]
    {
      this.settings, limiters, global, rules := settings, map[], None, map[];
    }

    ghost predicate Bounded() reads this { |limiters| <= settings.maxEntries }

    /** A rule registered again starts afresh. */
    method AddRule(name: string, rate: Rate)
      modifies `rules
      ensures rules == old(rules)[name := Rule(rate, map[])]
    {
      rules := rules[name := Rule(rate, map[])];
    }

    /** The shared store and the global limiter, in this order; `gate` is Admitted when there is no store. */
    method PassGlobal(now: int, gate: Verdict) returns (v: Verdict)
      modifies `global
      ensures gate.Refused? ==> v == gate && global == old(global)
      ensures gate == Admitted ==> (global, v) == Reserved(settings.globalRate, old(global), now)
    {
      if gate.Refused? { return gate; }
      var g := Reserved(settings.globalRate, global, now);
      global := g.0;
      v := g.1;
    }

    /** The limiter of a known rule, whose map is neither bounded nor related to any other. */
    method AllowByRule(rule: string, key: string, now: int) returns (v: Verdict)
      requires rule in rules
      modifies `rules
      ensures rules.Keys == old(rules).Keys && rules == old(rules)[rule := rules[rule]]
      ensures rules[rule].rate == old(rules)[rule].rate
      ensures (rules[rule].limiters, v) == Touch(rules[rule].rate, old(rules)[rule].limiters, key, now)
    {
      var r := Touch(rules[rule].rate, rules[rule].limiters, key, now);
      rules, v := rules[rule := rules[rule].(limiters := r.0)], r.1;
    }

    /** The limiter of a key; room is made for one not known yet. */
    method AllowByKey(key: string, now: int) returns (v: Verdict)
      modifies `limiters
      ensures exists m ::
                && (if key in old(limiters) then m == old(limiters) else RoomMade(settings, old(limiters), now, m))
                && (limiters, v) == Touch(settings.rate, m, key, now)
      ensures 1 <= settings.maxEntries && old(Bounded()) ==> Bounded()
    {
      if key !in limiters { EnsureCapacity(now); }
      var r := Touch(settings.rate, limiters, key, now);
      InsertSize(limiters, key, r.0[key]);
      limiters, v := r.0, r.1;
    }

    method Allow(key: string, rule: string, now: int, gate: Verdict) returns (v: Verdict, scope: Scope)
      modifies `limiters, `global, `rules
      ensures gate.Refused? ==> v == gate && scope == Global && global == old(global)
      ensures gate == Admitted ==>
                && global == Reserved(settings.globalRate, old(global), now).0
                && (scope == Global <==> Reserved(settings.globalRate, old(global), now).1.Refused?)
                && (scope == Global ==> v == Reserved(settings.globalRate, old(global), now).1)
      ensures scope == Global ==> limiters == old(limiters) && rules == old(rules)
      ensures scope != Global && rule != "" && rule in old(rules) ==>
                && limiters == old(limiters) && rule in rules && rules == old(rules)[rule := rules[rule]]
                && rules[rule].rate == old(rules)[rule].rate
                && (rules[rule].limiters, v) == Touch(rules[rule].rate, old(rules)[rule].limiters, key, now)
      ensures scope != Global && (rule == "" || rule !in old(rules)) ==>
                && rules == old(rules)
                && exists m ::
                     && (if key in old(limiters) then m == old(limiters)
                         else RoomMade(settings, old(limiters), now, m))
                     && (limiters, v) == Touch(settings.rate, m, key, now)
      ensures scope == PerKey <==> scope != Global && v.Refused?
      ensures 1 <= settings.maxEntries && old(Bounded()) ==> Bounded()
    {
      v := PassGlobal(now, gate);
      if v.Refused? { return v, Global; }
      if rule != "" && rule in rules {
        v := AllowByRule(rule, key, now);
      } else {
        v := AllowByKey(key, now);
      }
      scope := if v.Refused? then PerKey else Unscoped;
    }

    method EnsureCapacity(now: int)
      modifies `limiters
      ensures RoomMade(settings, old(limiters), now, limiters)
      ensures forall k :: k in limiters ==> k in old(limiters) && limiters[k] == old(limiters)[k]
      ensures forall k :: k in old(limiters) && k !in limiters ==>
                0 < settings.maxEntries <= |old(limiters)| &&
                (now - old(limiters)[k].lastSeen <= settings.idleTtl ==>
                   && (forall j :: j in limiters ==> old(limiters)[k].lastSeen <= limiters[j].lastSeen)
                   && forall j :: j in old(limiters) && j != k && now - old(limiters)[j].lastSeen <= settings.idleTtl
                                  ==> j in limiters)
      ensures 0 < settings.maxEntries <= |old(limiters)| ==>
                forall k :: k in limiters ==> now - limiters[k].lastSeen <= settings.idleTtl
      ensures 1 <= settings.maxEntries && old(Bounded()) ==> |limiters| < settings.maxEntries
    {
      if settings.maxEntries <= 0 || |limiters| < settings.maxEntries { return; }
      limiters := DropIdle(limiters, settings.idleTtl, now);
      SubmapSize(limiters, old(limiters));
      if |limiters| < settings.maxEntries { return; }
      var oldest := Oldest(limiters);
      limiters := limiters - {oldest};
      if 1 <= settings.maxEntries && old(Bounded()) { RoomBelowMax(settings, old(limiters), now, limiters); }
    }

    /** The same sweep over the keys' limiters and over those of every rule. */
    method Cleanup(now: int)
      modifies `limiters, `rules
      ensures forall k :: k in limiters <==> k in old(limiters) && now - old(limiters)[k].lastSeen <= settings.idleTtl
      ensures limiters == Live(old(limiters), settings.idleTtl, now)
      ensures rules == SweptRules(old(rules), settings.idleTtl, now)
    {
      limiters := DropIdle(limiters, settings.idleTtl, now);
      rules := SweepRules(rules, settings.idleTtl, now);
    }
  }

  method SweepRules(rules: map<string, Rule>, idle: nat, now: int) returns (swept: map<string, Rule>)
    ensures swept == SweptRules(rules, idle, now)
  {
    swept := rules;
    var todo := rules.Keys;
    while todo != {}
      invariant todo <= rules.Keys == swept.Keys
      invariant forall n :: n in todo ==> swept[n] == rules[n]
      invariant forall n :: n in rules.Keys - todo ==>
                  swept[n] == rules[n].(limiters := Live(rules[n].limiters, idle, now))
      decreases |todo|
    {
      var name :| name in todo;
      var live := DropIdle(rules[name].limiters, idle, now);
      swept, todo := swept[name := swept[name].(limiters := live)], todo - {name};
    }
  }

  lemma SubmapSize(a: Entries, b: Entries)
    requires a.Keys <= b.Keys
    ensures |a| <= |b|
  {
    assert b.Keys == a.Keys + (b.Keys - a.Keys);
    assert |a.Keys| == |a| && |b.Keys| == |b|;
  }

  // ---------------------------------------------------------------------------
  // Runs of requests and sweeps
  // ---------------------------------------------------------------------------

  datatype Event = Request(key: string, now: int) | Sweep(now: int)

  /** The map before the request of an absent key, when idle entries make enough room. */
  function Evicted(c: Settings, m: Entries, now: int): Entries {
    if c.maxEntries <= 0 || |m| < c.maxEntries then m else Live(m, c.idleTtl, now)
  }

  function Ready(c: Settings, m: Entries, e: Event): Entries
    requires e.Request?
  {
    if e.key in m then m else Evicted(c, m, e.now)
  }

  function Step(c: Settings, m: Entries, e: Event): Entries {
    match e
    case Sweep(now) => Live(m, c.idleTtl, now)
    case Request(key, now) => Touch(c.rate, Ready(c, m, e), key, now).0
  }

  function Run(c: Settings, es: seq<Event>, n: nat): Entries
    requires n <= |es|
  {
    if n == 0 then map[] else Step(c, Run(c, es, n - 1), es[n - 1])
  }

  ghost predicate Ordered(es: seq<Event>) {
    forall i, j :: 0 <= i <= j < |es| ==> es[i].now <= es[j].now
  }

  /** The times at which one key asked among the first n events. */
  function Asked(es: seq<Event>, key: string, n: nat): seq<int>
    requires n <= |es|
  {
    if n == 0 then []
    else if es[n - 1].Request? && es[n - 1].key == key then Asked(es, key, n - 1) + [es[n - 1].now]
    else Asked(es, key, n - 1)
  }

  lemma {:induction false} AskedOrdered(es: seq<Event>, key: string, n: nat)
    requires Ordered(es) && n <= |es|
    ensures Monotone(Asked(es, key, n))
    ensures Asked(es, key, n) != [] ==> n > 0 && Asked(es, key, n)[|Asked(es, key, n)| - 1] <= es[n - 1].now
  {
    if n > 0 {
      AskedOrdered(es, key, n - 1);
      if n > 1 { assert es[n - 2].now <= es[n - 1].now; }
    }
  }

  lemma {:induction false} FromOfPrefix(p: Rate, tat: Option<int>, ts: seq<int>, x: int, n: nat)
    requires n <= |ts|
    ensures From(p, tat, ts + [x], n) == From(p, tat, ts, n)
  {
    if n > 0 { FromOfPrefix(p, tat, ts, x, n - 1); }
  }

  /** The state of the limiter that a key would have for itself. */
  ghost function Private(c: Settings, asked: seq<int>): Option<int> { After(c.rate, asked, |asked|) }

  lemma PrivateStep(c: Settings, asked: seq<int>, now: int)
    ensures Private(c, asked + [now]) == Local(c.rate, Private(c, asked), now).0
    ensures VerdictAt(c.rate, asked + [now], |asked|) == Local(c.rate, Private(c, asked), now).1
  {
    FromOfPrefix(c.rate, None, asked, now, |asked|);
  }

  /** A held key has the state of a private limiter; a forgotten one has nothing left to remember. */
  ghost predicate Faithful(c: Settings, m: Entries, asked: seq<int>, key: string, now: int) {
    var tat := Private(c, asked);
    if key in m then asked != [] && m[key] == Entry(tat, asked[|asked| - 1]) else tat.None? || tat.value <= now
  }

  /** The idle time, a 64-bit duration, covers a full backlog. */
  ghost predicate Covered(c: Settings) {
    1 <= c.rate.burst && c.rate.burst * c.rate.emission <= c.idleTtl + 1 <= TWO_63
  }

  lemma CoveredFits(c: Settings, tat: Option<int>, now: int)
    requires Covered(c)
    ensures Reserved(c.rate, tat, now) == Local(c.rate, tat, now)
  {
    var e, b := c.rate.emission, c.rate.burst;
    assert e * (b - 1) == b * e - e;
    ReservedIsLocal(c.rate, tat, now);
  }

  lemma LiveFaithful(c: Settings, m: Entries, asked: seq<int>, key: string, now: int)
    requires Covered(c) && Monotone(asked) && Faithful(c, m, asked, key, now)
    ensures Faithful(c, Live(m, c.idleTtl, now), asked, key, now)
  {
    if key in m { BacklogBound(c.rate, asked, |asked|); }
  }

  lemma FreshAgrees(p: Rate, tat: Option<int>, now: int)
    requires 1 <= p.burst && (tat.None? || tat.value <= now)
    ensures Local(p, tat, now) == Local(p, None, now)
  {
    assert 0 <= Tolerance(p);
  }

  lemma TouchFaithful(c: Settings, m: Entries, asked: seq<int>, key: string, now: int)
    requires Covered(c) && Faithful(c, m, asked, key, now)
    ensures Faithful(c, Touch(c.rate, m, key, now).0, asked + [now], key, now)
    ensures Touch(c.rate, m, key, now).1 == VerdictAt(c.rate, asked + [now], |asked|)
  {
    PrivateStep(c, asked, now);
    CoveredFits(c, if key in m then m[key].tat else None, now);
    if key !in m { FreshAgrees(c.rate, Private(c, asked), now); }
  }

  lemma ReadyFaithful(c: Settings, m: Entries, e: Event, asked: seq<int>, key: string)
    requires Covered(c) && e.Request? && Monotone(asked) && Faithful(c, m, asked, key, e.now)
    ensures Faithful(c, Ready(c, m, e), asked, key, e.now)
  {
    LiveFaithful(c, m, asked, key, e.now);
  }

  lemma {:induction false} RunIsFaithful(c: Settings, es: seq<Event>, key: string, n: nat, now: int)
    requires Covered(c) && Ordered(es) && n <= |es| && (n > 0 ==> es[n - 1].now <= now)
    ensures Faithful(c, Run(c, es, n), Asked(es, key, n), key, now)
  {
    if n > 0 {
      var e, m, asked := es[n - 1], Run(c, es, n - 1), Asked(es, key, n - 1);
      if n > 1 { assert es[n - 2].now <= es[n - 1].now; }
      RunIsFaithful(c, es, key, n - 1, e.now);
      AskedOrdered(es, key, n - 1);
      if e.Sweep? {
        LiveFaithful(c, m, asked, key, e.now);
      } else {
        ReadyFaithful(c, m, e, asked, key);
        if e.key == key { TouchFaithful(c, Ready(c, m, e), asked, key, e.now); }
      }
    }
  }

  // ---------------------------------------------------------------------------
  // Every behaviour of the map
  // ---------------------------------------------------------------------------

  /** One event, with whatever entry the map chooses to displace when it is full. */
  ghost predicate Next(c: Settings, m: Entries, e: Event, m': Entries) {
    match e
    case Sweep(now) => m' == Live(m, c.idleTtl, now)
    case Request(key, now) => exists room ::
      (if key in m then room == m else RoomMade(c, m, now, room)) && m' == Touch(c.rate, room, key, now).0
  }

  ghost predicate Behaviour(c: Settings, es: seq<Event>, ms: seq<Entries>) {
    |ms| == |es| + 1 && ms[0] == map[] && forall i :: 0 <= i < |es| ==> Next(c, ms[i], es[i], ms[i + 1])
  }

  /** No insertion finds the map full of live entries, so no live entry is displaced. */
  ghost predicate Roomy(c: Settings, m: Entries, e: Event) {
    e.Request? ==> c.maxEntries <= 0 || e.key in m || |Evicted(c, m, e.now)| < c.maxEntries
  }

  lemma {:induction false} RoomyRunsAreEqual(c: Settings, es: seq<Event>, ms: seq<Entries>, i: nat)
    requires Behaviour(c, es, ms) && i <= |es| && forall j :: 0 <= j < i ==> Roomy(c, ms[j], es[j])
    ensures ms[i] == Run(c, es, i)
  {
    if i > 0 {
      RoomyRunsAreEqual(c, es, ms, i - 1);
      assert Next(c, ms[i - 1], es[i - 1], ms[i]);
    }
  }

  /**
    Forgetting is unobservable: with the idle time covering a full backlog and no live entry
    displaced, every verdict of every run of requests and sweeps is that of a private limiter
    which nobody ever evicts.
  */
  lemma ForgettingIsUnobservable(c: Settings, es: seq<Event>, ms: seq<Entries>, i: nat, room: Entries)
    requires Covered(c) && Ordered(es) && Behaviour(c, es, ms) && i < |es| && es[i].Request?
    requires forall j :: 0 <= j <= i ==> Roomy(c, ms[j], es[j])
    requires if es[i].key in ms[i] then room == ms[i] else RoomMade(c, ms[i], es[i].now, room)
    ensures var asked := Asked(es, es[i].key, i);
            Touch(c.rate, room, es[i].key, es[i].now).1 == VerdictAt(c.rate, asked + [es[i].now], |asked|)
  {
    var e, asked := es[i], Asked(es, es[i].key, i);
    if i > 0 { assert es[i - 1].now <= es[i].now; }
    RoomyRunsAreEqual(c, es, ms, i);
    RunIsFaithful(c, es, e.key, i, e.now);
    AskedOrdered(es, e.key, i);
    ReadyFaithful(c, ms[i], e, asked, e.key);
    TouchFaithful(c, room, asked, e.key, e.now);
  }

  /** The map of a rule has no bound, so that forgetting there is unobservable without further ado. */
  lemma RulesForgetUnobserved(c: Settings, es: seq<Event>, i: nat)
    requires c.maxEntries <= 0 && Covered(c) && Ordered(es) && i < |es| && es[i].Request?
    ensures var asked := Asked(es, es[i].key, i);
            Touch(c.rate, Run(c, es, i), es[i].key, es[i].now).1 == VerdictAt(c.rate, asked + [es[i].now], |asked|)
  {
    if i > 0 { assert es[i - 1].now <= es[i].now; }
    RunIsFaithful(c, es, es[i].key, i, es[i].now);
    TouchFaithful(c, Run(c, es, i), Asked(es, es[i].key, i), es[i].key, es[i].now);
  }

  /** Displacing included, no behaviour ever holds more than `maxEntries` keys. */
  lemma {:induction false} NeverMoreThanMaxEntries(c: Settings, es: seq<Event>, ms: seq<Entries>, i: nat)
    requires 1 <= c.maxEntries && Behaviour(c, es, ms) && i <= |es|
    ensures |ms[i]| <= c.maxEntries
  {
    if i > 0 {
      NeverMoreThanMaxEntries(c, es, ms, i - 1);
      var m, e := ms[i - 1], es[i - 1];
      assert Next(c, m, e, ms[i]);
      SubmapSize(Live(m, c.idleTtl, e.now), m);
      if e.Request? {
        var room :| && (if e.key in m then room == m else RoomMade(c, m, e.now, room))
                    && ms[i] == Touch(c.rate, room, e.key, e.now).0;
        RoomForOne(c, m, e, room);
      }
    }
  }

  lemma RoomBelowMax(c: Settings, m: Entries, now: int, room: Entries)
    requires 1 <= c.maxEntries && |m| <= c.maxEntries && RoomMade(c, m, now, room)
    ensures |room| < c.maxEntries
  {
    var live := Live(m, c.idleTtl, now);
    if c.maxEntries <= |m| && c.maxEntries <= |live| {
      SubmapSize(live, m);
      var victim :| IsOldest(live, victim) && room == live - {victim};
      assert room.Keys == live.Keys - {victim};
      assert |room.Keys| == |room| && |live.Keys| == |live|;
    }
  }

  lemma InsertSize(m: Entries, key: string, x: Entry)
    ensures |m[key := x]| == if key in m then |m| else |m| + 1
  {
    var n := m[key := x];
    assert n.Keys == m.Keys + {key};
    assert |n.Keys| == |n| && |m.Keys| == |m|;
  }

  lemma RoomForOne(c: Settings, m: Entries, e: Event, room: Entries)
    requires 1 <= c.maxEntries && |m| <= c.maxEntries && e.Request?
    requires if e.key in m then room == m else RoomMade(c, m, e.now, room)
    ensures |Touch(c.rate, room, e.key, e.now).0| <= c.maxEntries
  {
    if e.key !in m { RoomBelowMax(c, m, e.now, room); }
    InsertSize(room, e.key, Touch(c.rate, room, e.key, e.now).0[e.key]);
  }
}
