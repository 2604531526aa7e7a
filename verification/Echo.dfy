/**
  How long the echo of a trip can go on between replicas of the shared breaker
  (internal/circuit/redis_sync.go), over runs in which all clocks agree.
*/
module Echoes {
  import opened CircuitBreaking
  import opened Options
  import opened SharedBreaker
  import opened Replicas

  // ----- Clocks that agree -------------------------------------------------------------------

  function TimeOf(a: Action): Option<int> {
    match a
    case Own(_, e) =>
      (match e
       case Allow(now) => Some(now)
       case Success(now) => Some(now)
       case Failure(t) => Some(t.stamped)
       case ForceOpen(now) => Some(now)
       case Reset => None)
    case Script(_, at) => Some(at)
    case Look(_, at) => Some(at)
    case Force(_, at) => Some(at)
    case _ => None
  }

  function Latest(tr: Trace): (t: int)
    ensures t >= 0
  {
    match tr
    case Begin(_) => 0
    case Then(past, a) => if TimeOf(a).Some? && TimeOf(a).value > Latest(past) then TimeOf(a).value else Latest(past)
  }

  /** All clocks agree and never go back. */
  predicate Orderly(tr: Trace) {
    tr.Then? ==> Orderly(tr.past) && (TimeOf(tr.act).Some? ==> TimeOf(tr.act).value >= Latest(tr.past))
  }

  ghost predicate FineRecord(r: Record, latest: int) {
    Shaped(r) && (r.closedAt.Some? ==> r.closedAt.value <= latest)
  }

  ghost predicate Fine(st: Setting, tr: Trace) {
    && Legal(st, tr) && Orderly(tr) && st.config.Normal()
    && forall id :: id in End(st, tr).records ==> FineRecord(End(st, tr).records[id], Latest(tr))
  }

  lemma FineStep(st: Setting, tr: Trace, a: Action)
    requires Fine(st, tr) && Enabled(End(st, tr), a)
    requires TimeOf(a).Some? ==> TimeOf(a).value >= Latest(tr)
    ensures Fine(st, Then(tr, a))
    ensures Latest(Then(tr, a)) == if TimeOf(a).Some? then TimeOf(a).value else Latest(tr)
  {
    var w, n := End(st, tr), End(st, Then(tr, a));
    forall id | id in n.records ensures FineRecord(n.records[id], Latest(Then(tr, a))) {
      assert FineRecord(w.records[id], Latest(tr));
    }
  }

  lemma {:induction false} OrderlyIsFine(st: Setting, tr: Trace)
    requires Legal(st, tr) && Orderly(tr) && st.config.Normal()
    ensures Fine(st, tr)
  {
    if tr.Then? {
      OrderlyIsFine(st, tr.past);
      FineStep(st, tr.past, tr.act);
    }
  }

  /** From tr on to tr' nobody has tripped and nobody was reset. */
  ghost predicate Gently(st: Setting, tr: Trace, tr': Trace)
    requires Legal(st, tr')
  {
    tr' == tr ||
    (&& tr'.Then? && Gently(st, tr, tr'.past)
     && !(tr'.act.Own? && tr'.act.e.Reset?) && !Trips(st, End(st, tr'.past), tr'.act))
  }

  lemma {:induction false} GentlyOn(st: Setting, a: Trace, b: Trace, c: Trace)
    requires Legal(st, b) && Legal(st, c) && Gently(st, a, b) && Gently(st, b, c)
    ensures Gently(st, a, c)
  {
    if c != b { GentlyOn(st, a, b, c.past); }
  }

  // ----- When the echo of a trip is over -----------------------------------------------------

  /** The second of the latest clock reading. */
  function Soonest(tr: Trace): nat { Latest(tr) / NANOS }

  /** An open entry stamped u cannot open this replica any more: it has expired or predates its recovery. */
  predicate Deaf(st: Setting, s: int, r: Record, u: int) {
    s - u > st.ttl || (RecoveredAt(r) > 0 && RecoveredAt(r) > u)
  }

  ghost predicate DeafTo(st: Setting, s: int, who: string, r: Record, entries: map<string, Entry>) {
    forall x :: x in entries && x != who && entries[x].state.Open? ==> Deaf(st, s, r, entries[x].updated)
  }

  ghost predicate HushedCall(st: Setting, s: int, w: World, c: Call) {
    match c
    case Local(_, state, _) => !state.Open?
    case Fetched(who, read) => who in w.records ==> DeafTo(st, s, who, w.records[who], read)
    case Judging(who, read, now) => who in w.records ==> DeafTo(st, now, who, w.records[who], read)
    case Decided(who, _, _) => who !in w.records
  }

  /** No replica is open, and no open entry, stored or in flight, can open another one any more. */
  ghost predicate Hushed(st: Setting, tr: Trace)
    requires Legal(st, tr)
  {
    var w, s := End(st, tr), Soonest(tr);
    && (forall id :: id in w.records ==> !w.records[id].state.Open? && DeafTo(st, s, id, w.records[id], w.hash))
    && (forall t :: t in w.calls ==> HushedCall(st, s, w, w.calls[t]))
  }

  lemma DeafLater(st: Setting, s: int, who: string, r: Record, entries: map<string, Entry>, s': int, r': Record)
    requires DeafTo(st, s, who, r, entries) && s <= s' && RecoveredAt(r) <= RecoveredAt(r')
    ensures DeafTo(st, s', who, r', entries)
  {
  }

  lemma NothingLost(st: Setting, tr: Trace, a: Action)
    requires Fine(st, tr) && Legal(st, Then(tr, a)) && Orderly(Then(tr, a)) && !(a.Own? && a.e.Reset?)
    ensures var w, n := End(st, tr), End(st, Then(tr, a));
            && n.records.Keys == w.records.Keys && Soonest(tr) <= Soonest(Then(tr, a))
            && forall id :: id in w.records ==> RecoveredAt(w.records[id]) <= RecoveredAt(n.records[id])
  {
    var w, n := End(st, tr), End(st, Then(tr, a));
    forall id | id in w.records ensures RecoveredAt(w.records[id]) <= RecoveredAt(n.records[id]) {
      assert FineRecord(w.records[id], Latest(tr));
    }
  }

  lemma HushedHash(st: Setting, tr: Trace, a: Action, id: string)
    requires Fine(st, tr) && Legal(st, Then(tr, a)) && Orderly(Then(tr, a)) && !(a.Own? && a.e.Reset?)
    requires Hushed(st, tr) && id in End(st, tr).records
    ensures var n := End(st, Then(tr, a));
            id in n.records && DeafTo(st, Soonest(Then(tr, a)), id, n.records[id], n.hash)
  {
    var w, n := End(st, tr), End(st, Then(tr, a));
    NothingLost(st, tr, a);
    DeafLater(st, Soonest(tr), id, w.records[id], w.hash, Soonest(Then(tr, a)), n.records[id]);
    if a.Script? { assert HushedCall(st, Soonest(tr), w, w.calls[a.t]); }
  }

  lemma HushedCalls(st: Setting, tr: Trace, a: Action, t: nat)
    requires Fine(st, tr) && Legal(st, Then(tr, a)) && Orderly(Then(tr, a)) && !(a.Own? && a.e.Reset?)
    requires Hushed(st, tr) && t in End(st, Then(tr, a)).calls
    ensures var n := End(st, Then(tr, a));
            HushedCall(st, Soonest(Then(tr, a)), n, n.calls[t])
  {
    var w, n := End(st, tr), End(st, Then(tr, a));
    NothingLost(st, tr, a);
    if t in w.calls {
      var c := w.calls[t];
      assert HushedCall(st, Soonest(tr), w, c);
      if c.Fetched? && c.who in w.records {
        DeafLater(st, Soonest(tr), c.who, w.records[c.who], c.read, Soonest(Then(tr, a)), n.records[c.who]);
      }
      if c.Judging? && c.who in w.records {
        DeafLater(st, c.now, c.who, w.records[c.who], c.read, c.now, n.records[c.who]);
      }
      if a.Script? && a.t == t && c.who in w.records { HushedHash(st, tr, a, c.who); }
    }
  }

  lemma HushedStep(st: Setting, tr: Trace, a: Action)
    requires Fine(st, tr) && Legal(st, Then(tr, a)) && Orderly(Then(tr, a)) && !(a.Own? && a.e.Reset?)
    requires Hushed(st, tr) && !Trips(st, End(st, tr), a)
    ensures Hushed(st, Then(tr, a)) && !Forces(st, End(st, tr), a)
  {
    var w, n := End(st, tr), End(st, Then(tr, a));
    NothingLost(st, tr, a);
    assert a.Force? ==> HushedCall(st, Soonest(tr), w, w.calls[a.t]);
    forall id | id in n.records
      ensures !n.records[id].state.Open? && DeafTo(st, Soonest(Then(tr, a)), id, n.records[id], n.hash)
    {
      HushedHash(st, tr, a, id);
    }
    forall t | t in n.calls ensures HushedCall(st, Soonest(Then(tr, a)), n, n.calls[t]) {
      HushedCalls(st, tr, a, t);
    }
  }

  lemma {:induction false} HushedForGood(st: Setting, tr: Trace, tr': Trace)
    requires Fine(st, tr) && Fine(st, tr') && Gently(st, tr, tr') && Hushed(st, tr)
    ensures Hushed(st, tr') && ForcedCount(st, tr') == ForcedCount(st, tr)
  {
    if tr' != tr {
      OrderlyIsFine(st, tr'.past);
      HushedForGood(st, tr, tr'.past);
      HushedStep(st, tr'.past, tr'.act);
    }
  }

  // ----- Going on -----------------------------------------------------------------------------

  /** One more action that is neither a failure nor a reset. */
  lemma Go(st: Setting, tr: Trace, a: Action)
    requires Fine(st, tr) && Enabled(End(st, tr), a) && (TimeOf(a).Some? ==> TimeOf(a).value >= Latest(tr))
    requires a.Own? ==> a.e.Allow? || a.e.Success?
    ensures var tr' := Then(tr, a);
            && Fine(st, tr') && Gently(st, tr, tr') && End(st, tr') == Next(st, End(st, tr), a)
            && Latest(tr') == (if TimeOf(a).Some? then TimeOf(a).value else Latest(tr))
            && ForcedCount(st, tr') == ForcedCount(st, tr) + if Forces(st, End(st, tr), a) then 1 else 0
  {
    FineStep(st, tr, a);
    assert Gently(st, tr, tr);
  }

  /** From tr to tr' one replica's record changed, at time `at`, and nothing was forced. */
  ghost predicate Worked(st: Setting, tr: Trace, tr': Trace, who: string, at: int) {
    && Fine(st, tr) && Fine(st, tr') && Latest(tr') == at && Gently(st, tr, tr')
    && who in End(st, tr).records && who in End(st, tr').records
    && End(st, tr') == WithRecord(End(st, tr), who, End(st, tr').records[who])
    && ForcedCount(st, tr') == ForcedCount(st, tr)
  }

  function WithRecord(w: World, who: string, r: Record): World { w.(records := w.records[who := r]) }

  lemma OwnStep(st: Setting, tr: Trace, who: string, e: Event)
    requires Fine(st, tr) && who in End(st, tr).records && (e.Allow? || e.Success?) && e.now >= Latest(tr)
    ensures var tr' := Then(tr, Own(who, e));
            && Worked(st, tr, tr', who, e.now)
            && End(st, tr').records[who] == Step(st.config, End(st, tr).records[who], e)
  {
    assert FineRecord(End(st, tr).records[who], Latest(tr));
    Go(st, tr, Own(who, e));
  }

  lemma WorkedOn(st: Setting, a: Trace, b: Trace, c: Trace, who: string, at: int)
    requires Worked(st, a, b, who, at) && Worked(st, b, c, who, at)
    ensures Worked(st, a, c, who, at)
  {
    GentlyOn(st, a, b, c);
  }

  /** k successes bring a half-open or closed record to Closed once k reaches the threshold. */
  ghost predicate Recovering(c: Config, r: Record, k: nat) {
    r.state.Closed? || (r.state.HalfOpen? && r.successes >= k && (k > 0 ==> r.successes < c.successThreshold))
  }

  lemma {:induction false} Succeed(st: Setting, tr: Trace, who: string, at: int, k: nat) returns (tr': Trace)
    requires Fine(st, tr) && who in End(st, tr).records && at == Latest(tr) && k <= st.config.successThreshold
    requires Recovering(st.config, End(st, tr).records[who], k)
    ensures Worked(st, tr, tr', who, at)
    ensures Recovering(st.config, End(st, tr').records[who], st.config.successThreshold)
    decreases st.config.successThreshold - k
  {
    if k == st.config.successThreshold {
      tr' := tr;
    } else {
      OwnStep(st, tr, who, Success(at));
      assert FineRecord(End(st, tr).records[who], Latest(tr));
      var next := Then(tr, Own(who, Success(at)));
      tr' := Succeed(st, next, who, at, k + 1);
      WorkedOn(st, tr, next, tr', who, at);
    }
  }

  /** Once its timeout is over a replica can recover: one probe and enough successes. */
  lemma Recover(st: Setting, tr: Trace, who: string, at: int) returns (tr': Trace)
    requires Fine(st, tr) && who in End(st, tr).records && at >= Latest(tr)
    requires var r := End(st, tr).records[who];
             r.lastFailure.Some? ==> at - r.lastFailure.value >= st.config.timeout
    ensures Worked(st, tr, tr', who, at) && End(st, tr').records[who].state.Closed?
  {
    OwnStep(st, tr, who, Allow(at));
    var next := Then(tr, Own(who, Allow(at)));
    tr' := Succeed(st, next, who, at, 0);
    WorkedOn(st, tr, next, tr', who, at);
  }

  /** A replica's push: its entry is the only thing in the world that changes. */
  lemma PushOpen(st: Setting, tr: Trace, who: string, t: nat, at: nat) returns (tr': Trace)
    requires Fine(st, tr) && t !in End(st, tr).calls && who in End(st, tr).records && at >= Latest(tr)
    ensures Fine(st, tr') && Gently(st, tr, tr') && Latest(tr') == at
    ensures var w := End(st, tr);
            var e := Entry(w.records[who].state, w.records[who].failures, at / NANOS);
            End(st, tr') == w.(hash := w.hash[who := e])
    ensures ForcedCount(st, tr') == ForcedCount(st, tr)
  {
    var w := End(st, tr);
    var one := Then(tr, ReadLocal(t, who));
    Go(st, tr, ReadLocal(t, who));
    var two := Then(one, Script(t, at));
    Go(st, one, Script(t, at));
    tr' := Then(two, Abandon(t));
    Go(st, two, Abandon(t));
    assert End(st, tr').calls == w.calls;
  }

  /** A call that is judging an entry its replica is not deaf to forces it open. */
  lemma ForcesOpen(st: Setting, tr: Trace, t: nat, other: string) returns (tr': Trace)
    requires Fine(st, tr) && Enabled(End(st, tr), Judge(t, other))
    requires var w, c := End(st, tr), End(st, tr).calls[t];
             && !w.records[c.who].state.Open? && other != c.who && c.read[other].state.Open?
             && !Deaf(st, c.now, w.records[c.who], c.read[other].updated)
    ensures Fine(st, tr') && Gently(st, tr, tr')
    ensures var w, who := End(st, tr), End(st, tr).calls[t].who;
            && End(st, tr').records == w.records[who := ForceStep(w.records[who], Latest(tr))]
            && End(st, tr').calls == w.calls - {t}
    ensures ForcedCount(st, tr') == ForcedCount(st, tr) + 1
  {
    var one := Then(tr, Judge(t, other));
    Go(st, tr, Judge(t, other));
    tr' := Then(one, Force(t, Latest(tr)));
    Go(st, one, Force(t, Latest(tr)));
  }

  /** The same starting from an entry in the hash, through a call of its own. */
  lemma PullOpen(st: Setting, tr: Trace, who: string, other: string, t: nat) returns (tr': Trace)
    requires Fine(st, tr) && t !in End(st, tr).calls && who in End(st, tr).records
    requires var w := End(st, tr);
             && !w.records[who].state.Open? && other != who && other in w.hash && w.hash[other].state.Open?
             && !Deaf(st, Soonest(tr), w.records[who], w.hash[other].updated)
    ensures Fine(st, tr') && Gently(st, tr, tr') && ForcedCount(st, tr') == ForcedCount(st, tr) + 1
    ensures var w, w' := End(st, tr), End(st, tr');
            && w'.records == w.records[who := ForceStep(w.records[who], Latest(tr))] && w'.calls == w.calls
  {
    var w, at := End(st, tr), Latest(tr);
    var one := Then(tr, ReadLocal(t, who));
    Go(st, tr, ReadLocal(t, who));
    var two := Then(one, Script(t, at));
    Go(st, one, Script(t, at));
    assert End(st, two).calls[t].read[other] == w.hash[other];
    var three := Then(two, Look(t, at));
    Go(st, two, Look(t, at));
    tr' := ForcesOpen(st, three, t, other);
    assert Gently(st, tr, two);
    GentlyOn(st, tr, three, tr');
    assert End(st, tr').calls == w.calls;
  }

  /** A time by which everything so far has happened and this record's timeout is over. */
  function LateEnough(st: Setting, tr: Trace, r: Record): (at: nat)
    ensures at >= Latest(tr) && (r.lastFailure.Some? ==> at - r.lastFailure.value >= st.config.timeout)
  {
    var f := if r.lastFailure.Some? then r.lastFailure.value + st.config.timeout else 0;
    if f > Latest(tr) then f else Latest(tr)
  }

  /** While x is open, y recovers, x pushes, y reads: y is open again and nobody has failed. */
  lemma Round(st: Setting, tr: Trace, x: string, y: string, t: nat) returns (tr': Trace)
    requires Fine(st, tr) && t !in End(st, tr).calls && st.ttl >= 0
    requires x != y && x in End(st, tr).records && y in End(st, tr).records && End(st, tr).records[x].state.Open?
    ensures Fine(st, tr') && Gently(st, tr, tr') && t !in End(st, tr').calls
    ensures x in End(st, tr').records && y in End(st, tr').records && End(st, tr').records[y].state.Open?
    ensures ForcedCount(st, tr') == ForcedCount(st, tr) + 1
  {
    var at := LateEnough(st, tr, End(st, tr).records[y]);
    var recovered := Recover(st, tr, y, at);
    var pushed := PushOpen(st, recovered, x, t, at);
    GentlyOn(st, tr, recovered, pushed);
    assert FineRecord(End(st, pushed).records[y], Latest(pushed));
    tr' := PullOpen(st, pushed, y, x, t);
    GentlyOn(st, tr, pushed, tr');
  }

  /**
    From any run in which a replica is open, two replicas can keep forcing each other open, each
    recovering in between, as often as one likes and without a single further failure or reset.
  */
  lemma {:induction false} EchoesForEver(st: Setting, tr: Trace, x: string, y: string, t: nat, n: nat)
    returns (tr': Trace)
    requires Fine(st, tr) && t !in End(st, tr).calls && st.ttl >= 0
    requires x != y && x in End(st, tr).records && y in End(st, tr).records && End(st, tr).records[x].state.Open?
    ensures Fine(st, tr') && Gently(st, tr, tr') && ForcedCount(st, tr') == ForcedCount(st, tr) + n
    decreases n
  {
    tr' := tr;
    if n > 0 {
      var next := Round(st, tr, x, y, t);
      tr' := EchoesForEver(st, next, y, x, t, n - 1);
      GentlyOn(st, tr, next, tr');
    }
  }

  // ----- Exactly when it is over --------------------------------------------------------------

  ghost predicate CanForce(st: Setting, tr: Trace)
    requires Legal(st, tr)
  {
    exists tr' :: Fine(st, tr') && Gently(st, tr, tr') && ForcedCount(st, tr') > ForcedCount(st, tr)
  }

  lemma {:induction false} Unused(s: set<nat>) returns (t: nat)
    ensures forall x :: x in s ==> x < t
    decreases |s|
  {
    t := 0;
    if s != {} {
      var x :| x in s;
      t := Unused(s - {x});
      assert forall y :: y in s ==> y == x || y in s - {x};
      if t <= x { t := x + 1; }
    }
  }

  /** An open state on its way to the hash will be heard: it is stamped only when it gets there. */
  lemma LocalIsHeard(st: Setting, tr: Trace, t: nat, y: string)
    requires Fine(st, tr) && st.ttl >= 0 && t in End(st, tr).calls
    requires var w, c := End(st, tr), End(st, tr).calls[t];
             && c.Local? && c.state.Open? && y in w.records && y != c.who && !w.records[y].state.Open?
    ensures CanForce(st, tr)
  {
    var w, at := End(st, tr), Latest(tr);
    var x := w.calls[t].who;
    var one := Then(tr, Script(t, at));
    Go(st, tr, Script(t, at));
    assert FineRecord(w.records[y], Latest(tr));
    var other := Unused(End(st, one).calls.Keys);
    var tr' := PullOpen(st, one, y, x, other);
    GentlyOn(st, tr, one, tr');
  }

  lemma CallIsHeard(st: Setting, tr: Trace, t: nat, x: string, y: string)
    requires Fine(st, tr) && st.ttl >= 0 && t in End(st, tr).calls
    requires x != y && x in End(st, tr).records && y in End(st, tr).records
    requires forall id :: id in End(st, tr).records ==> !End(st, tr).records[id].state.Open?
    requires !HushedCall(st, Soonest(tr), End(st, tr), End(st, tr).calls[t])
    ensures CanForce(st, tr)
  {
    var w := End(st, tr);
    match w.calls[t] {
      case Local(who, _, _) => LocalIsHeard(st, tr, t, if who == x then y else x);
      case Fetched(who, read) =>
        var other :| other in read && other != who && read[other].state.Open?
                     && !Deaf(st, Soonest(tr), w.records[who], read[other].updated);
        var one := Then(tr, Look(t, Latest(tr)));
        Go(st, tr, Look(t, Latest(tr)));
        var tr' := ForcesOpen(st, one, t, other);
        GentlyOn(st, tr, one, tr');
      case Judging(who, read, now) =>
        var other :| other in read && other != who && read[other].state.Open?
                     && !Deaf(st, now, w.records[who], read[other].updated);
        var tr' := ForcesOpen(st, tr, t, other);
      case Decided(who, _, _) => Go(st, tr, Force(t, Latest(tr)));
    }
  }

  /**
    With two replicas or more: a replica can still be forced open, without another failure or reset,
    if and only if one is open or an open entry, stored or in flight, would still convince another.
  */
  lemma EchoIff(st: Setting, tr: Trace, x: string, y: string)
    requires Fine(st, tr) && st.ttl >= 0 && x != y && x in End(st, tr).records && y in End(st, tr).records
    ensures CanForce(st, tr) <==> !Hushed(st, tr)
  {
    var w := End(st, tr);
    if Hushed(st, tr) {
      forall tr' | Fine(st, tr') && Gently(st, tr, tr') ensures ForcedCount(st, tr') == ForcedCount(st, tr) {
        HushedForGood(st, tr, tr');
      }
    } else if id :| id in w.records && w.records[id].state.Open? {
      var t := Unused(w.calls.Keys);
      var tr' := Round(st, tr, id, if id == x then y else x, t);
    } else if id :| id in w.records && !DeafTo(st, Soonest(tr), id, w.records[id], w.hash) {
      var other :| other in w.hash && other != id && w.hash[other].state.Open?
                   && !Deaf(st, Soonest(tr), w.records[id], w.hash[other].updated);
      var t := Unused(w.calls.Keys);
      var tr' := PullOpen(st, tr, id, other, t);
    } else {
      var t :| t in w.calls && !HushedCall(st, Soonest(tr), w, w.calls[t]);
      CallIsHeard(st, tr, t, x, y);
    }
  }

  // ----- A recovery between the judgement and the opening --------------------------------------

  /** A half-open replica whose call has decided may close and is then opened on a word older than that. */
  lemma OldWordOpens(st: Setting, tr: Trace, t: nat, at: nat)
    requires Fine(st, tr) && Enabled(End(st, tr), Force(t, at)) && at >= Latest(tr)
    requires var d, r := End(st, tr).calls[t], End(st, tr).records[End(st, tr).calls[t].who];
             r.state.HalfOpen? && r.successes + 1 >= st.config.successThreshold && at / NANOS > d.stamp
    ensures var d := End(st, tr).calls[t];
            var closed := Then(tr, Own(d.who, Success(at)));
            && Fine(st, Then(closed, Force(t, at))) && Forces(st, End(st, closed), Force(t, at))
            && RecoveredLater(st, closed, t, d.who, d.stamp)
            && RecoveredAt(End(st, closed).records[d.who]) == at / NANOS > d.stamp
  {
    var who := End(st, tr).calls[t].who;
    OwnStep(st, tr, who, Success(at));
    Go(st, Then(tr, Own(who, Success(at))), Force(t, at));
  }

  const TWO := Setting(Config(Consecutive, 1, 1, 0, 1, 1, 2, 1), 30)

  const ZERO := Failure(Reading(0, 0, 0))

  lemma BothTripped() returns (tr: Trace)
    ensures Fine(TWO, tr) && Latest(tr) == 0
    ensures var w := End(TWO, tr);
            && "a" in w.records && w.records["a"].state.Open?
            && "b" in w.records && w.records["b"].state.Open? && w.records["b"].closedAt == None
            && w.records["b"].lastFailure == Some(0) && w.calls == map[]
  {
    var t0 := Begin({"a", "b"});
    OrderlyIsFine(TWO, t0);
    var t1 := Then(t0, Own("a", ZERO));
    FineStep(TWO, t0, Own("a", ZERO));
    assert End(TWO, t1).records["a"].state.Open? && End(TWO, t1).records["b"] == FRESH;
    tr := Then(t1, Own("b", ZERO));
    FineStep(TWO, t1, Own("b", ZERO));
    assert End(TWO, tr).records["b"].state.Open?;
  }

  /** "b" is half-open and the hash holds what "a" wrote at 100. */
  lemma OneWaits() returns (tr: Trace)
    ensures Fine(TWO, tr) && Latest(tr) == 100 * NANOS
    ensures var w := End(TWO, tr);
            && "b" in w.records && w.records["b"].state.HalfOpen? && w.records["b"].closedAt == None
            && "a" in w.hash && w.hash["a"].state.Open? && w.hash["a"].updated == 100 && w.calls == map[]
  {
    var both := BothTripped();
    OwnStep(TWO, both, "b", Allow(NANOS));
    var half := Then(both, Own("b", Allow(NANOS)));
    tr := PushOpen(TWO, half, "a", 0, 100 * NANOS);
  }

  /** "b" has fetched that entry at 105. */
  lemma OneFetches() returns (tr: Trace)
    ensures Fine(TWO, tr) && Latest(tr) == 105 * NANOS
    ensures var w := End(TWO, tr);
            && "b" in w.records && w.records["b"].state.HalfOpen? && w.records["b"].closedAt == None
            && 1 in w.calls && w.calls[1].Fetched? && w.calls[1].who == "b"
            && "a" in w.calls[1].read && w.calls[1].read["a"].state.Open? && w.calls[1].read["a"].updated == 100
  {
    var waits := OneWaits();
    var local := Then(waits, ReadLocal(1, "b"));
    Go(TWO, waits, ReadLocal(1, "b"));
    tr := Then(local, Script(1, 105 * NANOS));
    Go(TWO, local, Script(1, 105 * NANOS));
  }

  /** A run in which a replica is opened on an entry stamped five seconds before its recovery. */
  lemma RecoveryIsOverrun() returns (tr: Trace)
    ensures Fine(TWO, tr) && Enabled(End(TWO, tr), Force(1, 105 * NANOS))
    ensures var w := End(TWO, tr);
            && w.calls[1] == Decided("b", "a", 100) && RecoveredAt(w.records["b"]) == 105
            && Forces(TWO, w, Force(1, 105 * NANOS))
  {
    var fetched := OneFetches();
    var looked := Then(fetched, Look(1, 105 * NANOS));
    Go(TWO, fetched, Look(1, 105 * NANOS));
    var decided := Then(looked, Judge(1, "a"));
    Go(TWO, looked, Judge(1, "a"));
    OldWordOpens(TWO, decided, 1, 105 * NANOS);
    tr := Then(decided, Own("b", Success(105 * NANOS)));
  }
}
