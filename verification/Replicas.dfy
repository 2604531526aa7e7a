/**
  The shared circuit state over any number of replicas (internal/circuit/redis_sync.go), for one
  backend: each replica's own breaker, the shared hash, and the push-and-read calls in flight. A call
  reads the local state, runs the script, looks at the clock, judges the entries it got back one by
  one, each against the recovery time of that moment, and on the first convincing one goes on to
  force the circuit open. Between any two of these steps everything else may happen.
*/
module Replicas {
  import opened Backends
  import opened CircuitBreaking
  import opened Options
  import opened SharedBreaker

  datatype Setting = Setting(config: Config, ttl: int)

  /** `Decided` has found the entry of `other`, stamped `stamp`, convincing and has yet to open. */
  datatype Call =
    | Local(who: string, state: State, failures: nat)
    | Fetched(who: string, read: map<string, Entry>)
    | Judging(who: string, read: map<string, Entry>, now: int)
    | Decided(who: string, other: string, stamp: nat)

  datatype World = World(records: map<string, Record>, hash: map<string, Entry>, calls: map<nat, Call>)

  /** Times are clock readings, which may disagree. A call may fail and the hash may expire. */
  datatype Action =
    | Own(who: string, e: Event)
    | ReadLocal(t: nat, who: string)
    | Script(t: nat, at: nat)
    | Look(t: nat, at: nat)
    | Judge(t: nat, other: string)
    | Force(t: nat, at: nat)
    | Abandon(t: nat)
    | Expire

  ghost predicate Enabled(w: World, a: Action) {
    match a
    case Own(who, e) => who in w.records && Shaped(w.records[who]) && !e.ForceOpen?
    case ReadLocal(t, who) => t !in w.calls && who in w.records
    case Script(t, _) => t in w.calls && w.calls[t].Local?
    case Look(t, _) => t in w.calls && w.calls[t].Fetched?
    case Judge(t, other) =>
      t in w.calls && w.calls[t].Judging? && w.calls[t].who in w.records && other in w.calls[t].read
    case Force(t, _) => t in w.calls && w.calls[t].Decided? && w.calls[t].who in w.records
    case Abandon(t) => t in w.calls
    case Expire => true
  }

  function ViewOf(st: Setting, who: string, r: Record, now: int): View {
    View(who, now, st.ttl, RecoveredAt(r))
  }

  /** The call after judging one entry: a convincing one of a sibling decides it. */
  function Judged(st: Setting, c: Call, r: Record, other: string): Call
    requires c.Judging? && other in c.read
  {
    if other != c.who && Convincing(c.read[other], ViewOf(st, c.who, r, c.now))
    then Decided(c.who, other, c.read[other].updated) else c
  }

  /** The call after judging entries in some order, the record staying as it is. */
  function JudgedAll(st: Setting, c: Call, r: Record, order: seq<string>, n: nat): (c': Call)
    requires c.Judging? && n <= |order| && forall i :: 0 <= i < |order| ==> order[i] in c.read
    ensures c' == c || c'.Decided?
  {
    if n == 0 then c
    else
      var before := JudgedAll(st, c, r, order, n - 1);
      if before.Judging? then Judged(st, before, r, order[n - 1]) else before
  }

  lemma {:induction false} DecidedIff(st: Setting, c: Call, r: Record, order: seq<string>, n: nat)
    requires c.Judging? && n <= |order| && forall i :: 0 <= i < |order| ==> order[i] in c.read
    ensures JudgedAll(st, c, r, order, n).Decided? <==>
            exists i :: 0 <= i < n && order[i] != c.who && Convincing(c.read[order[i]], ViewOf(st, c.who, r, c.now))
  {
    if n > 0 { DecidedIff(st, c, r, order, n - 1); }
  }

  /** Whatever the order, a call decides to open if and only if one of the entries it has read convinces. */
  lemma JudgesThemAll(st: Setting, c: Call, r: Record, order: seq<string>)
    requires c.Judging? && (forall id :: id in c.read <==> id in order)
    requires forall i :: 0 <= i < |order| ==> order[i] in c.read
    ensures JudgedAll(st, c, r, order, |order|).Decided? <==> SiblingOpen(c.read, ViewOf(st, c.who, r, c.now))
  {
    DecidedIff(st, c, r, order, |order|);
    if id :| id in c.read && id != c.who && Convincing(c.read[id], ViewOf(st, c.who, r, c.now)) {
      var i :| 0 <= i < |order| && order[i] == id;
    }
  }

  ghost function Next(st: Setting, w: World, a: Action): World
    requires Enabled(w, a)
  {
    match a
    case Own(who, e) => w.(records := w.records[who := Step(st.config, w.records[who], e)])
    case ReadLocal(t, who) =>
      w.(calls := w.calls[t := Local(who, w.records[who].state, w.records[who].failures)])
    case Script(t, at) =>
      var c := w.calls[t];
      var hash := w.hash[c.who := Entry(c.state, c.failures, at / NANOS)];
      w.(hash := hash, calls := w.calls[t := Fetched(c.who, hash)])
    case Look(t, at) => w.(calls := w.calls[t := Judging(w.calls[t].who, w.calls[t].read, at / NANOS)])
    case Judge(t, other) =>
      w.(calls := w.calls[t := Judged(st, w.calls[t], w.records[w.calls[t].who], other)])
    case Force(t, at) =>
      var who := w.calls[t].who;
      w.(records := w.records[who := ForceStep(w.records[who], at)], calls := w.calls - {t})
    case Abandon(t) => w.(calls := w.calls - {t})
    case Expire => w.(hash := map[])
  }

  /** A run, latest action outermost. */
  datatype Trace = Begin(ids: set<string>) | Then(past: Trace, act: Action)

  ghost function End(st: Setting, tr: Trace): World
    requires Legal(st, tr)
    decreases tr, 1
  {
    match tr
    case Begin(ids) => World(map id | id in ids :: FRESH, map[], map[])
    case Then(past, a) => Next(st, End(st, past), a)
  }

  ghost predicate Legal(st: Setting, tr: Trace)
    decreases tr, 0
  {
    tr.Then? ==> Legal(st, tr.past) && Enabled(End(st, tr.past), tr.act)
  }

  ghost predicate OpensBy(st: Setting, w: World, a: Action, who: string)
    requires Enabled(w, a)
  {
    who in w.records && !w.records[who].state.Open? && Next(st, w, a).records[who].state.Open?
  }

  /** A replica opens on a failure of its own. */
  ghost predicate Trips(st: Setting, w: World, a: Action)
    requires Enabled(w, a)
  {
    a.Own? && a.e.Failure? && OpensBy(st, w, a, a.who)
  }

  ghost predicate Forces(st: Setting, w: World, a: Action)
    requires Enabled(w, a)
  {
    a.Force? && OpensBy(st, w, a, w.calls[a.t].who)
  }

  ghost function TripCount(st: Setting, tr: Trace): nat
    requires Legal(st, tr)
  {
    if tr.Begin? then 0 else TripCount(st, tr.past) + if Trips(st, End(st, tr.past), tr.act) then 1 else 0
  }

  ghost function ForcedCount(st: Setting, tr: Trace): nat
    requires Legal(st, tr)
  {
    if tr.Begin? then 0 else ForcedCount(st, tr.past) + if Forces(st, End(st, tr.past), tr.act) then 1 else 0
  }

  // ----- Nothing opens without a trip --------------------------------------------------------

  ghost predicate AllClosed(entries: map<string, Entry>) {
    forall id :: id in entries ==> entries[id].state.Closed?
  }

  ghost predicate QuietCall(c: Call) {
    match c
    case Local(_, state, _) => state.Closed?
    case Fetched(_, read) => AllClosed(read)
    case Judging(_, read, _) => AllClosed(read)
    case Decided(_, _, _) => false
  }

  /** Every replica, every entry and everything in flight says closed. */
  ghost predicate Quiet(w: World) {
    && (forall id :: id in w.records ==> w.records[id].state.Closed? && Shaped(w.records[id]))
    && AllClosed(w.hash)
    && (forall t :: t in w.calls ==> QuietCall(w.calls[t]))
  }

  lemma QuietStep(st: Setting, w: World, a: Action)
    requires Enabled(w, a) && Quiet(w) && !Trips(st, w, a)
    ensures Quiet(Next(st, w, a))
  {
    if a.Script? || a.Look? || a.Judge? || a.Force? { assert QuietCall(w.calls[a.t]); }
  }

  /** As long as no replica has tripped on its own failures, no replica and no entry is open. */
  lemma {:induction false} OpenNeedsATrip(st: Setting, tr: Trace)
    requires Legal(st, tr) && TripCount(st, tr) == 0
    ensures Quiet(End(st, tr)) && ForcedCount(st, tr) == 0
  {
    if tr.Then? {
      OpenNeedsATrip(st, tr.past);
      QuietStep(st, End(st, tr.past), tr.act);
    }
  }

  // ----- Where an open entry comes from ------------------------------------------------------

  /** Replica `who`, found open by itself, had the script write that at server time `stamp`. */
  ghost predicate WroteOpen(st: Setting, tr: Trace, who: string, stamp: nat)
    requires Legal(st, tr)
  {
    tr.Then? &&
    (WroteOpen(st, tr.past, who, stamp) ||
     (&& tr.act.Script? && tr.act.at / NANOS == stamp
      && var c := End(st, tr.past).calls[tr.act.t];
         c.who == who && c.state.Open? && WasOpen(st, tr.past, who)))
  }

  /** Replica `who` was open when one of its calls read its state. */
  ghost predicate WasOpen(st: Setting, tr: Trace, who: string)
    requires Legal(st, tr)
  {
    tr.Then? &&
    (WasOpen(st, tr.past, who) ||
     (tr.act.ReadLocal? && tr.act.who == who && End(st, tr.past).records[who].state.Open?))
  }

  ghost predicate Accounted(st: Setting, tr: Trace, entries: map<string, Entry>)
    requires Legal(st, tr)
  {
    forall id :: id in entries && entries[id].state.Open? ==> WroteOpen(st, tr, id, entries[id].updated)
  }

  /** At action `a` call t takes decision d, its clock having shown `now` and the recovery time being `seen`. */
  ghost predicate Decides(st: Setting, w: World, a: Action, t: nat, d: Call, now: int, seen: int) {
    && d.Decided? && Enabled(w, a) && a == Judge(t, d.other)
    && Next(st, w, a).calls[t] == d && now == w.calls[t].now && seen == RecoveredAt(w.records[d.who])
  }

  /** Call t once decided like that. */
  ghost predicate HadDecided(st: Setting, tr: Trace, t: nat, d: Call, now: int, seen: int)
    requires Legal(st, tr)
  {
    tr.Then? && (Decides(st, End(st, tr.past), tr.act, t, d, now, seen) || HadDecided(st, tr.past, t, d, now, seen))
  }

  ghost predicate AccountedCall(st: Setting, tr: Trace, t: nat, c: Call)
    requires Legal(st, tr)
  {
    match c
    case Local(who, state, _) => state.Open? ==> WasOpen(st, tr, who)
    case Fetched(_, read) => Accounted(st, tr, read)
    case Judging(_, read, _) => Accounted(st, tr, read)
    case Decided(who, other, stamp) =>
      && other != who && WroteOpen(st, tr, other, stamp)
      && exists now, seen ::
           HadDecided(st, tr, t, c, now, seen) && now - stamp <= st.ttl && (seen > 0 ==> seen <= stamp)
  }

  lemma AccountedLater(st: Setting, tr: Trace, a: Action, t: nat, c: Call)
    requires Legal(st, Then(tr, a)) && AccountedCall(st, tr, t, c)
    ensures AccountedCall(st, Then(tr, a), t, c)
  {
    if c.Decided? {
      var now, seen :| HadDecided(st, tr, t, c, now, seen) && now - c.stamp <= st.ttl && (seen > 0 ==> seen <= c.stamp);
      assert HadDecided(st, Then(tr, a), t, c, now, seen);
    }
  }

  lemma DecisionAccounted(st: Setting, tr: Trace, a: Action)
    requires Legal(st, Then(tr, a)) && a.Judge? && AccountedCall(st, tr, a.t, End(st, tr).calls[a.t])
    ensures AccountedCall(st, Then(tr, a), a.t, End(st, Then(tr, a)).calls[a.t])
  {
    var w, c := End(st, tr), End(st, Then(tr, a)).calls[a.t];
    if c.Decided? {
      assert Decides(st, w, a, a.t, c, w.calls[a.t].now, RecoveredAt(w.records[c.who]));
      assert HadDecided(st, Then(tr, a), a.t, c, w.calls[a.t].now, RecoveredAt(w.records[c.who]));
    }
  }

  /** Every open entry and every decision goes back to a replica that had found itself open. */
  lemma {:induction false} EntriesAreAccounted(st: Setting, tr: Trace)
    requires Legal(st, tr)
    ensures Accounted(st, tr, End(st, tr).hash)
    ensures forall t :: t in End(st, tr).calls ==> AccountedCall(st, tr, t, End(st, tr).calls[t])
  {
    if tr.Then? {
      var w, n := End(st, tr.past), End(st, tr);
      EntriesAreAccounted(st, tr.past);
      if tr.act.Script? { assert AccountedCall(st, tr.past, tr.act.t, w.calls[tr.act.t]); }
      assert Accounted(st, tr, n.hash);
      forall t | t in n.calls ensures AccountedCall(st, tr, t, n.calls[t]) {
        if t in w.calls && n.calls[t] == w.calls[t] {
          AccountedLater(st, tr.past, tr.act, t, w.calls[t]);
        } else if tr.act.Judge? {
          DecisionAccounted(st, tr.past, tr.act);
        } else if tr.act.Look? {
          AccountedLater(st, tr.past, tr.act, t, w.calls[t]);
        }
      }
    }
  }

  /**
    A replica is forced open only on the word of another one that was open, judged within the TTL of
    its stamp and at a moment when it was not older than this replica's last recovery.
  */
  lemma ForcedOpenHasACause(st: Setting, tr: Trace, t: nat, at: nat)
    requires Legal(st, tr) && Enabled(End(st, tr), Force(t, at))
    ensures var d := End(st, tr).calls[t];
            && d.other != d.who && WroteOpen(st, tr, d.other, d.stamp)
            && exists now, seen ::
                 HadDecided(st, tr, t, d, now, seen) && now - d.stamp <= st.ttl && (seen > 0 ==> seen <= d.stamp)
  {
    EntriesAreAccounted(st, tr);
    assert AccountedCall(st, tr, t, End(st, tr).calls[t]);
  }

  // ----- Recovering between the judgement and the opening ------------------------------------

  ghost predicate Closes(st: Setting, w: World, a: Action, who: string) {
    && Enabled(w, a) && a.Own? && a.who == who && a.e.Success?
    && w.records[who].state.HalfOpen? && Next(st, w, a).records[who].state.Closed?
  }

  /** Since call t decided, `who` last closed in a second after `stamp`, and was not reset after that. */
  ghost predicate RecoveredLater(st: Setting, tr: Trace, t: nat, who: string, stamp: nat)
    requires Legal(st, tr)
  {
    tr.Then? &&
    var w := End(st, tr.past);
    if Closes(st, w, tr.act, who) then tr.act.e.now / NANOS > stamp
    else
      && tr.act != Own(who, Reset)
      && !(tr.act.Judge? && tr.act.t == t && w.calls[t] != End(st, tr).calls[t])
      && RecoveredLater(st, tr.past, t, who, stamp)
  }

  lemma RecoveryStep(st: Setting, w: World, a: Action, who: string)
    requires Enabled(w, a) && who in w.records
    ensures var n := Next(st, w, a);
            && who in n.records
            && RecoveredAt(n.records[who]) == if Closes(st, w, a, who) then a.e.now / NANOS
                                              else if a == Own(who, Reset) then 0
                                              else RecoveredAt(w.records[who])
  {
  }

  /**
    The entry a call has decided on is older than the replica's recovery at that moment, which it was
    not when judged, if and only if the replica has closed in a later second since.
  */
  lemma {:induction false} OldWordIff(st: Setting, tr: Trace, t: nat)
    requires Legal(st, tr) && t in End(st, tr).calls && End(st, tr).calls[t].Decided?
    requires End(st, tr).calls[t].who in End(st, tr).records
    ensures var d := End(st, tr).calls[t];
            Predates(d.stamp, ViewOf(st, d.who, End(st, tr).records[d.who], 0)) <==>
            RecoveredLater(st, tr, t, d.who, d.stamp)
  {
    var w, d := End(st, tr.past), End(st, tr).calls[t];
    RecoveryStep(st, w, tr.act, d.who);
    if t in w.calls && w.calls[t] == d { OldWordIff(st, tr.past, t); }
  }

  // ----- Silence stays -----------------------------------------------------------------------

  ghost predicate NoneOpen(entries: map<string, Entry>, except: set<string>) {
    forall id :: id in entries && id !in except ==> !entries[id].state.Open?
  }

  ghost predicate SilentCall(c: Call) {
    match c
    case Local(_, state, _) => !state.Open?
    case Fetched(who, read) => NoneOpen(read, {who})
    case Judging(who, read, _) => NoneOpen(read, {who})
    case Decided(_, _, _) => false
  }

  /** No replica is open, and nothing stored or in flight tells one that another is. */
  ghost predicate Silent(w: World) {
    && (forall id :: id in w.records ==> !w.records[id].state.Open?)
    && NoneOpen(w.hash, {})
    && (forall t :: t in w.calls ==> SilentCall(w.calls[t]))
  }

  lemma SilentStep(st: Setting, w: World, a: Action)
    requires Enabled(w, a) && Silent(w) && !Trips(st, w, a)
    ensures Silent(Next(st, w, a)) && !Forces(st, w, a)
  {
    if a.Script? || a.Look? || a.Judge? || a.Force? { assert SilentCall(w.calls[a.t]); }
  }

  predicate Extends(tr: Trace, tr': Trace) { tr' == tr || (tr'.Then? && Extends(tr, tr'.past)) }

  /** After any history, once the world is silent it stays so until the next trip, and nothing is forced. */
  lemma {:induction false} SilentUntilTheNextTrip(st: Setting, tr: Trace, tr': Trace)
    requires Legal(st, tr') && Extends(tr, tr') && Legal(st, tr) && Silent(End(st, tr))
    ensures TripCount(st, tr) <= TripCount(st, tr')
    ensures TripCount(st, tr') == TripCount(st, tr) ==>
              Silent(End(st, tr')) && ForcedCount(st, tr') == ForcedCount(st, tr)
  {
    if tr' != tr {
      SilentUntilTheNextTrip(st, tr, tr'.past);
      if TripCount(st, tr') == TripCount(st, tr) { SilentStep(st, End(st, tr'.past), tr'.act); }
    }
  }
}
