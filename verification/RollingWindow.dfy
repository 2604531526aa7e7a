/**
  The rolling window of internal/circuit/breaker.go against an exact log of outcomes: every
  live bucket counts exactly what was put in it since its start, so the window never counts
  an outcome that is not inside the last window, and every rolling trip is backed.
*/
module RollingWindow {
  import opened CircuitBreaking

  datatype Note = Note(time: int, ok: bool, slot: nat)

  /** What one call, taking r to r', makes of the outcomes in the window. */
  function Logged(c: Config, r: Record, e: Event, r': Record, log: seq<Note>): seq<Note> {
    match e
    case Reset => []
    case Success(now) =>
      if r.state.HalfOpen? && r'.state.Closed? then []
      else if r.state.Closed? && c.mode.Rolling? then log + [Note(now, true, Slot(c.window, now))]
      else log
    case Failure(t) =>
      if !r.state.HalfOpen? && c.mode.Rolling? then log + [Note(t.noted, false, Slot(c.window, t.noted))] else log
    case _ => log
  }

  /** The outcomes put into the window since it was last cleared. */
  ghost function Log(c: Config, es: seq<Event>, rs: seq<Record>, n: nat): seq<Note>
    requires n <= |es| && n < |rs|
  {
    if n == 0 then [] else Logged(c, rs[n - 1], es[n - 1], rs[n], Log(c, es, rs, n - 1))
  }

  function Begin(e: Event): int
    requires !e.Reset?
  {
    if e.Failure? then e.t.stamped else e.now
  }

  function End(e: Event): int
    requires !e.Reset?
  {
    if e.Failure? then e.t.summed else e.now
  }

  /** The clock never runs backwards, neither between calls nor within one. */
  ghost predicate OnClock(es: seq<Event>) {
    && (forall i :: 0 <= i < |es| && es[i].Failure? ==> es[i].t.stamped <= es[i].t.noted <= es[i].t.summed)
    && (forall i, j :: 0 <= i < j < |es| && !es[i].Reset? && !es[j].Reset? ==> End(es[i]) <= Begin(es[j]))
  }

  ghost predicate Before(log: seq<Note>, now: int) { forall k :: 0 <= k < |log| ==> log[k].time <= now }

  /** Notes of one slot and kind, from time lo on, among the first n. */
  ghost function InSlot(log: seq<Note>, slot: nat, lo: int, ok: bool, n: nat): nat
    requires n <= |log|
  {
    if n == 0 then 0
    else InSlot(log, slot, lo, ok, n - 1)
         + if log[n - 1].slot == slot && lo <= log[n - 1].time && log[n - 1].ok == ok then 1 else 0
  }

  /** Notes of one kind from time lo on, among the first n. */
  ghost function Exact(log: seq<Note>, lo: int, ok: bool, n: nat): nat
    requires n <= |log|
  {
    if n == 0 then 0
    else Exact(log, lo, ok, n - 1) + if lo <= log[n - 1].time && log[n - 1].ok == ok then 1 else 0
  }

  lemma {:induction false} InSlotAppend(log: seq<Note>, x: Note, slot: nat, lo: int, ok: bool, n: nat)
    requires n <= |log|
    ensures InSlot(log + [x], slot, lo, ok, n) == InSlot(log, slot, lo, ok, n)
  {
    if n > 0 { InSlotAppend(log, x, slot, lo, ok, n - 1); }
  }

  lemma {:induction false} InSlotNone(log: seq<Note>, slot: nat, lo: int, ok: bool, n: nat)
    requires n <= |log| && forall k :: 0 <= k < |log| && log[k].slot == slot ==> log[k].time < lo
    ensures InSlot(log, slot, lo, ok, n) == 0
  {
    if n > 0 { InSlotNone(log, slot, lo, ok, n - 1); }
  }

  lemma {:induction false} InSlotShrinks(log: seq<Note>, slot: nat, lo: int, hi: int, ok: bool, n: nat)
    requires n <= |log| && lo <= hi
    ensures InSlot(log, slot, hi, ok, n) <= InSlot(log, slot, lo, ok, n)
  {
    if n > 0 { InSlotShrinks(log, slot, lo, hi, ok, n - 1); }
  }

  /** One bucket holds exactly its slot's notes since its start, all within one window of it. */
  ghost predicate BucketBacked(b: Bucket, slot: nat, window: int, log: seq<Note>) {
    match b
    case Unused => forall k :: 0 <= k < |log| ==> log[k].slot != slot
    case Bucket(start, successes, failures) =>
      && successes == InSlot(log, slot, start, true, |log|)
      && failures == InSlot(log, slot, start, false, |log|)
      && (exists k :: 0 <= k < |log| && log[k].time == start)
      && forall k :: 0 <= k < |log| && log[k].slot == slot ==> log[k].time < start + window
  }

  ghost predicate Backed(buckets: seq<Bucket>, window: int, log: seq<Note>) {
    if buckets == [] then log == []
    else
      && |buckets| == BUCKETS
      && (forall k :: 0 <= k < |log| ==> log[k].slot < BUCKETS)
      && (forall s :: 0 <= s < BUCKETS ==> BucketBacked(buckets[s], s, window, log))
  }

  lemma OtherBucketKept(b: Bucket, slot: nat, window: int, log: seq<Note>, x: Note)
    requires BucketBacked(b, slot, window, log) && x.slot != slot
    ensures BucketBacked(b, slot, window, log + [x])
  {
    if b.Bucket? {
      var k :| 0 <= k < |log| && log[k].time == b.start;
      assert (log + [x])[k].time == b.start;
      InSlotAppend(log, x, slot, b.start, true, |log|);
      InSlotAppend(log, x, slot, b.start, false, |log|);
    }
  }

  lemma AddedBucketBacked(b: Bucket, window: int, log: seq<Note>, x: Note)
    requires 0 < window && BucketBacked(b, x.slot, window, log) && Before(log, x.time)
    ensures BucketBacked(Added(b, window, x.time, x.ok), x.slot, window, log + [x])
  {
    var start := Added(b, window, x.time, x.ok).start;
    InSlotAppend(log, x, x.slot, start, true, |log|);
    InSlotAppend(log, x, x.slot, start, false, |log|);
    if b.Unused? || x.time - b.start >= window {
      InSlotNone(log, x.slot, x.time, true, |log|);
      InSlotNone(log, x.slot, x.time, false, |log|);
      assert (log + [x])[|log|].time == start;
    } else {
      var k :| 0 <= k < |log| && log[k].time == b.start;
      assert (log + [x])[k].time == start;
    }
  }

  lemma NotedBacked(buckets: seq<Bucket>, window: int, log: seq<Note>, now: int, ok: bool)
    requires 0 < window && Backed(buckets, window, log) && Before(log, now)
    ensures Backed(Noted(buckets, window, now, ok), window, log + [Note(now, ok, Slot(window, now))])
  {
    var x := Note(now, ok, Slot(window, now));
    var ring := Ring(buckets);
    var after := Noted(buckets, window, now, ok);
    forall s | 0 <= s < BUCKETS ensures BucketBacked(after[s], s, window, log + [x]) {
      assert BucketBacked(ring[s], s, window, log);
      if s == x.slot {
        AddedBucketBacked(ring[s], window, log, x);
      } else {
        OtherBucketKept(ring[s], s, window, log, x);
      }
    }
  }

  lemma LogStep(c: Config, r: Record, e: Event, r': Record, log: seq<Note>)
    requires c.Normal() && Took(c, r, e, r') && Backed(r.buckets, c.window, log)
    requires !e.Reset? ==> Before(log, Begin(e))
    requires e.Failure? ==> e.t.stamped <= e.t.noted <= e.t.summed
    ensures Backed(r'.buckets, c.window, Logged(c, r, e, r', log))
    ensures !e.Reset? ==> Before(Logged(c, r, e, r', log), End(e))
  {
    match e
    case Success(now) => NotedBacked(r.buckets, c.window, log, now, true);
    case Failure(t) => NotedBacked(r.buckets, c.window, log, t.noted, false);
    case _ =>
  }

  lemma {:induction false} LogIsPast(c: Config, es: seq<Event>, rs: seq<Record>, n: nat, j: nat)
    requires OnClock(es) && |rs| == |es| + 1 && n <= j < |es| && !es[j].Reset?
    ensures Before(Log(c, es, rs, n), Begin(es[j]))
  {
    if n > 0 {
      LogIsPast(c, es, rs, n - 1, j);
      if !es[n - 1].Reset? { assert End(es[n - 1]) <= Begin(es[j]); }
    }
  }

  /** In every run each live bucket counts exactly the outcomes put in it since its start. */
  lemma {:induction false} BucketsAreExact(c: Config, es: seq<Event>, rs: seq<Record>, n: nat)
    requires IsRun(c, es, rs) && OnClock(es) && n <= |es|
    ensures Backed(rs[n].buckets, c.window, Log(c, es, rs, n))
  {
    if n > 0 {
      BucketsAreExact(c, es, rs, n - 1);
      if !es[n - 1].Reset? { LogIsPast(c, es, rs, n - 1, n - 1); }
      assert Took(c, rs[n - 1], es[n - 1], rs[n]);
      LogStep(c, rs[n - 1], es[n - 1], rs[n], Log(c, es, rs, n - 1));
    }
  }

  // ---------------------------------------------------------------------------
  // Summing over the slots
  // ---------------------------------------------------------------------------

  ghost function OverSlots(log: seq<Note>, lo: int, ok: bool, n: nat, m: nat): nat
    requires n <= |log|
  {
    if m == 0 then 0 else OverSlots(log, lo, ok, n, m - 1) + InSlot(log, m - 1, lo, ok, n)
  }

  lemma {:induction false} OverSlotsStep(log: seq<Note>, lo: int, ok: bool, n: nat, m: nat)
    requires 0 < n <= |log|
    ensures OverSlots(log, lo, ok, n, m) == OverSlots(log, lo, ok, n - 1, m)
            + if log[n - 1].slot < m && lo <= log[n - 1].time && log[n - 1].ok == ok then 1 else 0
  {
    if m > 0 { OverSlotsStep(log, lo, ok, n, m - 1); }
  }

  lemma {:induction false} OverSlotsEmpty(log: seq<Note>, lo: int, ok: bool, m: nat)
    ensures OverSlots(log, lo, ok, 0, m) == 0
  {
    if m > 0 { OverSlotsEmpty(log, lo, ok, m - 1); }
  }

  lemma {:induction false} SlotsPartitionTheLog(log: seq<Note>, lo: int, ok: bool, n: nat)
    requires n <= |log| && forall k :: 0 <= k < |log| ==> log[k].slot < BUCKETS
    ensures OverSlots(log, lo, ok, n, BUCKETS) == Exact(log, lo, ok, n)
  {
    if n == 0 {
      OverSlotsEmpty(log, lo, ok, BUCKETS);
    } else {
      SlotsPartitionTheLog(log, lo, ok, n - 1);
      OverSlotsStep(log, lo, ok, n, BUCKETS);
    }
  }

  lemma {:induction false} TotalsWithin(buckets: seq<Bucket>, window: int, log: seq<Note>, now: int, m: nat)
    requires |buckets| == BUCKETS && m <= BUCKETS && Backed(buckets, window, log)
    ensures var lo := now - window + 1;
            && Total(buckets, window, now, m) <=
               OverSlots(log, lo, true, |log|, m) + OverSlots(log, lo, false, |log|, m)
            && Failures(buckets, window, now, m) <= OverSlots(log, lo, false, |log|, m)
            && Total(buckets, window, now, m) - Failures(buckets, window, now, m) <= OverSlots(log, lo, true, |log|, m)
  {
    if m > 0 {
      TotalsWithin(buckets, window, log, now, m - 1);
      var b, lo := buckets[m - 1], now - window + 1;
      assert BucketBacked(b, m - 1, window, log);
      if Live(b, window, now) {
        InSlotShrinks(log, m - 1, lo, b.start, true, |log|);
        InSlotShrinks(log, m - 1, lo, b.start, false, |log|);
      }
    }
  }

  /** The totals of the window, successes and failures separately, are within the exact numbers. */
  ghost predicate Contained(buckets: seq<Bucket>, window: int, log: seq<Note>, now: int) {
    var total, failures := Total(buckets, window, now, |buckets|), Failures(buckets, window, now, |buckets|);
    && failures <= Exact(log, now - window + 1, false, |log|)
    && total - failures <= Exact(log, now - window + 1, true, |log|)
  }

  lemma BackedIsContained(buckets: seq<Bucket>, window: int, log: seq<Note>, now: int)
    requires Backed(buckets, window, log)
    ensures Contained(buckets, window, log, now)
  {
    if buckets != [] {
      TotalsWithin(buckets, window, log, now, BUCKETS);
      SlotsPartitionTheLog(log, now - window + 1, true, |log|);
      SlotsPartitionTheLog(log, now - window + 1, false, |log|);
    }
  }

  /** Containment: in every run the window never counts more than the outcomes younger than it. */
  lemma WindowIsContained(c: Config, es: seq<Event>, rs: seq<Record>, n: nat, now: int)
    requires IsRun(c, es, rs) && OnClock(es) && n <= |es|
    ensures Contained(rs[n].buckets, c.window, Log(c, es, rs, n), now)
  {
    BucketsAreExact(c, es, rs, n);
    BackedIsContained(rs[n].buckets, c.window, Log(c, es, rs, n), now);
  }

  lemma TripCounts(c: Config, buckets: seq<Bucket>, now: int)
    requires c.Normal() && ShouldTrip(c, buckets, now)
    ensures c.minRequests <= Total(buckets, c.window, now, |buckets|)
    ensures 0 < Failures(buckets, c.window, now, |buckets|)
  {
    var total, failures := Total(buckets, c.window, now, |buckets|), Failures(buckets, c.window, now, |buckets|);
    assert 0 < total * c.rateNum;
    assert failures == 0 ==> failures * c.rateDen == 0;
  }

  /** At least so many outcomes, a failure among them, younger than the window. */
  ghost predicate Supported(c: Config, log: seq<Note>, now: int) {
    && Before(log, now)
    && c.minRequests <= Exact(log, now - c.window + 1, true, |log|) + Exact(log, now - c.window + 1, false, |log|)
    && 0 < Exact(log, now - c.window + 1, false, |log|)
  }

  /** Every rolling trip rests on at least `minRequests` logged outcomes younger than the window. */
  lemma RollingTripIsBacked(c: Config, es: seq<Event>, rs: seq<Record>, n: nat)
    requires IsRun(c, es, rs) && OnClock(es) && n < |es| && c.mode.Rolling?
    requires rs[n].state.Closed? && rs[n + 1].state.Open? && es[n].Failure?
    ensures Supported(c, Log(c, es, rs, n + 1), es[n].t.summed)
  {
    assert Took(c, rs[n], es[n], rs[n + 1]);
    BucketsAreExact(c, es, rs, n);
    LogIsPast(c, es, rs, n, n);
    LogStep(c, rs[n], es[n], rs[n + 1], Log(c, es, rs, n));
    BackedIsContained(rs[n + 1].buckets, c.window, Log(c, es, rs, n + 1), es[n].t.summed);
    TripCounts(c, rs[n + 1].buckets, es[n].t.summed);
  }

  // ---------------------------------------------------------------------------
  // When the window is exact
  // ---------------------------------------------------------------------------

  /**
    A note younger than the window that its bucket does not count any more: the bucket aged out with
    the note inside, or was restarted after it.
  */
  predicate Missed(b: Bucket, x: Note, window: int, now: int) {
    now - window < x.time && (!Live(b, window, now) || x.time < b.start)
  }

  ghost function Both(log: seq<Note>, slot: nat, lo: int, n: nat): nat
    requires n <= |log|
  {
    InSlot(log, slot, lo, true, n) + InSlot(log, slot, lo, false, n)
  }

  function CountedIn(b: Bucket, window: int, now: int): nat {
    if Live(b, window, now) then b.successes + b.failures else 0
  }

  /** Counting from a later time loses notes exactly if there are some in between. */
  lemma {:induction false} LossIff(log: seq<Note>, slot: nat, lo: int, hi: int, n: nat)
    requires n <= |log| && lo <= hi
    ensures Both(log, slot, hi, n) <= Both(log, slot, lo, n)
    ensures Both(log, slot, hi, n) == Both(log, slot, lo, n) <==>
            forall k :: 0 <= k < n && log[k].slot == slot ==> !(lo <= log[k].time < hi)
  {
    if n > 0 { LossIff(log, slot, lo, hi, n - 1); }
  }

  lemma {:induction false} NoneIff(log: seq<Note>, slot: nat, lo: int, n: nat)
    requires n <= |log|
    ensures Both(log, slot, lo, n) == 0 <==> forall k :: 0 <= k < n && log[k].slot == slot ==> log[k].time < lo
  {
    if n > 0 { NoneIff(log, slot, lo, n - 1); }
  }

  lemma BucketExactIff(b: Bucket, slot: nat, window: int, log: seq<Note>, now: int)
    requires BucketBacked(b, slot, window, log)
    ensures CountedIn(b, window, now) <= Both(log, slot, now - window + 1, |log|)
    ensures CountedIn(b, window, now) == Both(log, slot, now - window + 1, |log|) <==>
            forall k :: 0 <= k < |log| && log[k].slot == slot ==> !Missed(b, log[k], window, now)
  {
    if Live(b, window, now) {
      LossIff(log, slot, now - window + 1, b.start, |log|);
    } else {
      NoneIff(log, slot, now - window + 1, |log|);
    }
  }

  ghost predicate NoneMissed(buckets: seq<Bucket>, window: int, log: seq<Note>, now: int, m: nat)
    requires m <= |buckets|
  {
    forall k :: 0 <= k < |log| && log[k].slot < m ==> !Missed(buckets[log[k].slot], log[k], window, now)
  }

  lemma {:induction false} TotalExactIff(buckets: seq<Bucket>, window: int, log: seq<Note>, now: int, m: nat)
    requires |buckets| == BUCKETS && m <= BUCKETS && Backed(buckets, window, log)
    ensures var lo := now - window + 1;
            var exact := OverSlots(log, lo, true, |log|, m) + OverSlots(log, lo, false, |log|, m);
            && Total(buckets, window, now, m) <= exact
            && (Total(buckets, window, now, m) == exact <==> NoneMissed(buckets, window, log, now, m))
  {
    if m > 0 {
      TotalExactIff(buckets, window, log, now, m - 1);
      assert BucketBacked(buckets[m - 1], m - 1, window, log);
      BucketExactIff(buckets[m - 1], m - 1, window, log, now);
    }
  }

  ghost function ExactTotal(log: seq<Note>, lo: int): nat {
    Exact(log, lo, true, |log|) + Exact(log, lo, false, |log|)
  }

  ghost predicate IsExact(buckets: seq<Bucket>, window: int, log: seq<Note>, now: int) {
    Total(buckets, window, now, |buckets|) == ExactTotal(log, now - window + 1)
  }

  lemma RingIsExactIff(buckets: seq<Bucket>, window: int, log: seq<Note>, now: int)
    requires |buckets| == BUCKETS && Backed(buckets, window, log)
    ensures IsExact(buckets, window, log, now) <==> NoneMissed(buckets, window, log, now, BUCKETS)
  {
    TotalExactIff(buckets, window, log, now, BUCKETS);
    SlotsPartitionTheLog(log, now - window + 1, true, |log|);
    SlotsPartitionTheLog(log, now - window + 1, false, |log|);
  }

  lemma BackedIsExactIff(buckets: seq<Bucket>, window: int, log: seq<Note>, now: int)
    requires Backed(buckets, window, log)
    ensures IsExact(buckets, window, log, now) <==> NoneMissed(buckets, window, log, now, |buckets|)
  {
    if buckets == [] {
      assert ExactTotal([], now - window + 1) == 0;
    } else {
      RingIsExactIff(buckets, window, log, now);
    }
  }

  /** In every run and at any time the window's total is exact if and only if no note is missed. */
  lemma WindowIsExactIff(c: Config, es: seq<Event>, rs: seq<Record>, n: nat, now: int)
    requires IsRun(c, es, rs) && OnClock(es) && n <= |es|
    ensures IsExact(rs[n].buckets, c.window, Log(c, es, rs, n), now) <==>
            NoneMissed(rs[n].buckets, c.window, Log(c, es, rs, n), now, |rs[n].buckets|)
  {
    BucketsAreExact(c, es, rs, n);
    BackedIsExactIff(rs[n].buckets, c.window, Log(c, es, rs, n), now);
  }

  // ---------------------------------------------------------------------------
  // When a rolling breaker opens
  // ---------------------------------------------------------------------------

  /** Enough outcomes, and a share of failures above the threshold. */
  ghost predicate Excessive(c: Config, total: int, failures: int) {
    c.minRequests <= total && c.rateNum * total < c.rateDen * failures
  }

  ghost predicate WindowExcessive(c: Config, buckets: seq<Bucket>, now: int) {
    Excessive(c, Total(buckets, c.window, now, |buckets|), Failures(buckets, c.window, now, |buckets|))
  }

  ghost predicate LogExcessive(c: Config, log: seq<Note>, now: int) {
    Excessive(c, ExactTotal(log, now - c.window + 1), Exact(log, now - c.window + 1, false, |log|))
  }

  /**
    In every run in rolling mode a closed breaker opens by itself on a failure, if and only if with it
    the window holds enough outcomes and too many failures among them.
  */
  lemma RollingTripIff(c: Config, es: seq<Event>, rs: seq<Record>, n: nat)
    requires IsRun(c, es, rs) && n < |es| && c.mode.Rolling? && rs[n].state.Closed? && !es[n].ForceOpen?
    ensures rs[n + 1].state.Open? <==>
            es[n].Failure? && WindowExcessive(c, rs[n + 1].buckets, es[n].t.summed)
    ensures rs[n + 1].state.Open? || rs[n + 1].state.Closed?
  {
    assert Took(c, rs[n], es[n], rs[n + 1]);
  }

  lemma ExactCounts(c: Config, buckets: seq<Bucket>, log: seq<Note>, now: int)
    requires Backed(buckets, c.window, log) && NoneMissed(buckets, c.window, log, now, |buckets|)
    ensures WindowExcessive(c, buckets, now) <==> LogExcessive(c, log, now)
  {
    BackedIsExactIff(buckets, c.window, log, now);
    BackedIsContained(buckets, c.window, log, now);
  }

  /** Where no outcome is missed, these are the numbers of all outcomes younger than the window. */
  lemma RollingTripIffLogged(c: Config, es: seq<Event>, rs: seq<Record>, n: nat)
    requires IsRun(c, es, rs) && OnClock(es) && n < |es| && c.mode.Rolling? && rs[n].state.Closed? && es[n].Failure?
    requires NoneMissed(rs[n + 1].buckets, c.window, Log(c, es, rs, n + 1), es[n].t.summed, |rs[n + 1].buckets|)
    ensures rs[n + 1].state.Open? <==> LogExcessive(c, Log(c, es, rs, n + 1), es[n].t.summed)
  {
    BucketsAreExact(c, es, rs, n + 1);
    RollingTripIff(c, es, rs, n);
    ExactCounts(c, rs[n + 1].buckets, Log(c, es, rs, n + 1), es[n].t.summed);
  }

  const TEN_TICKS := Config(Rolling, 1, 1, 0, 100, 1, 2, 20)

  /** Successes at 9 and 100 share a bucket that starts at 9. */
  lemma TwoInOneBucket() returns (rs: seq<Record>)
    ensures var es := [Success(9), Success(100)];
            && IsRun(TEN_TICKS, es, rs) && rs[2].state.Closed?
            && |rs[2].buckets| == BUCKETS && rs[2].buckets[0] == Bucket(9, 2, 0)
            && (forall i :: 1 <= i < BUCKETS ==> rs[2].buckets[i] == Unused)
            && Log(TEN_TICKS, es, rs, 2) == [Note(9, true, 0), Note(100, true, 0)]
  {
    var es := [Success(9), Success(100)];
    var r1 := Step(TEN_TICKS, FRESH, es[0]);
    var r2 := Step(TEN_TICKS, r1, es[1]);
    rs := [FRESH, r1, r2];
    assert Took(TEN_TICKS, rs[0], es[0], rs[1]) && Took(TEN_TICKS, rs[1], es[1], rs[2]);
    assert Slot(100, 9) == 0 && Slot(100, 100) == 0;
    assert Log(TEN_TICKS, es, rs, 0) == [];
    assert Log(TEN_TICKS, es, rs, 1) == [Note(9, true, 0)];
  }

  /** A bucket that outlives its rotation ages out with a fresh outcome inside. */
  lemma AgedOutBucketMisses() returns (rs: seq<Record>)
    ensures var es := [Success(9), Success(100)];
            && IsRun(TEN_TICKS, es, rs) && OnClock(es)
            && Total(rs[2].buckets, 100, 109, |rs[2].buckets|) == 0
            && ExactTotal(Log(TEN_TICKS, es, rs, 2), 10) == 1
  {
    rs := TwoInOneBucket();
    OneLive(rs[2].buckets, 100, 109, BUCKETS);
    var log := [Note(9, true, 0), Note(100, true, 0)];
    assert Exact(log, 10, true, 0) == 0 && Exact(log, 10, true, 1) == 0;
    assert Exact(log, 10, false, 0) == 0 && Exact(log, 10, false, 1) == 0;
  }

  /** A bucket restarted in its rotation forgets a fresh outcome and goes on counting. */
  lemma RestartedBucketMisses() returns (rs: seq<Record>)
    ensures var es := [Success(9), Success(100), Success(109)];
            && IsRun(TEN_TICKS, es, rs) && OnClock(es)
            && Total(rs[3].buckets, 100, 109, |rs[3].buckets|) == 1
            && ExactTotal(Log(TEN_TICKS, es, rs, 3), 10) == 2
  {
    var two := TwoInOneBucket();
    var es := [Success(9), Success(100), Success(109)];
    rs := two + [Step(TEN_TICKS, two[2], es[2])];
    assert Took(TEN_TICKS, two[0], Success(9), two[1]) && Took(TEN_TICKS, two[1], Success(100), two[2]);
    assert Took(TEN_TICKS, rs[0], es[0], rs[1]) && Took(TEN_TICKS, rs[1], es[1], rs[2]);
    assert Took(TEN_TICKS, rs[2], es[2], rs[3]);
    assert Slot(100, 109) == 0 && rs[3].buckets[0] == Bucket(109, 1, 0);
    OneLive(rs[3].buckets, 100, 109, BUCKETS);
    var log := Log(TEN_TICKS, es, rs, 3);
    assert Log(TEN_TICKS, es, rs, 0) == Log(TEN_TICKS, es[..2], two, 0) == [];
    assert Log(TEN_TICKS, es, rs, 1) == Log(TEN_TICKS, es[..2], two, 1);
    assert Log(TEN_TICKS, es, rs, 2) == Log(TEN_TICKS, es[..2], two, 2);
    assert es[..2] == [Success(9), Success(100)];
    assert log == [Note(9, true, 0), Note(100, true, 0), Note(109, true, 0)];
    assert Exact(log, 10, true, 0) == 0 && Exact(log, 10, true, 1) == 0 && Exact(log, 10, true, 2) == 1;
    assert Exact(log, 10, false, 0) == 0 && Exact(log, 10, false, 1) == 0 && Exact(log, 10, false, 2) == 0;
  }

  lemma {:induction false} OneLive(buckets: seq<Bucket>, window: int, now: int, n: nat)
    requires 0 < n <= |buckets| && forall i :: 1 <= i < |buckets| ==> !Live(buckets[i], window, now)
    ensures Total(buckets, window, now, n) == CountedIn(buckets[0], window, now)
  {
    if n > 1 { OneLive(buckets, window, now, n - 1); } else { assert Total(buckets, window, now, 0) == 0; }
  }
}
