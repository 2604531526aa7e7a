/**
  GCRA rate limiting in its three forms: the local limiter (limiter.go), the Redis
  script (redis_store.go) and the in-memory store (store.go).

  Times and emissions are integers of one unit. A theoretical arrival time (TAT) that was
  never set is `None`: the source uses the zero time, which is before every real instant.
*/
module Gcra {
  import opened Options

  datatype Verdict = Admitted | Refused(retryAfter: int)

  // ---------------------------------------------------------------------------
  // The local limiter
  // ---------------------------------------------------------------------------

  datatype Rate = Rate(emission: nat, burst: int)

  function Later(tat: Option<int>, now: int): int {
    if tat.None? || tat.value < now then now else tat.value
  }

  function Tolerance(p: Rate): int {
    if p.burst < 1 then 0 else p.emission * (p.burst - 1)
  }

  /** One event at the local limiter: the TAT afterwards and the verdict. */
  function Local(p: Rate, tat: Option<int>, now: int): (Option<int>, Verdict) {
    if p.burst < 1 then (tat, Refused(0))
    else
      var start := Later(tat, now);
      var allowAt := start - Tolerance(p);
      if now < allowAt then (tat, Refused(allowAt - now))
      else (Some(start + p.emission), Admitted)
  }

  // The limiter's durations are signed 64-bit numbers: the tolerance is a product of two, and the least is its own
  // negation.

  const TWO_63 := 0x8000_0000_0000_0000

  function Wrap64(x: int): (w: int)
    ensures -TWO_63 <= w < TWO_63 && (-TWO_63 <= x < TWO_63 ==> w == x)
    ensures TWO_63 <= x < 3 * TWO_63 ==> w == x - 2 * TWO_63
  {
    (x + TWO_63) % (2 * TWO_63) - TWO_63
  }

  /** The emission that stands for a rate that is not positive. */
  const BLOCKED := 0x3fff_ffff_ffff_ffff

  function Tolerance64(p: Rate): int { Wrap64(Tolerance(p)) }

  /** One event, given the tolerance. */
  function Metered(p: Rate, tolerance: int, tat: Option<int>, now: int): (Option<int>, Verdict) {
    if p.burst < 1 then (tat, Refused(0))
    else
      var start := Later(tat, now);
      var allowAt := start + Wrap64(-tolerance);
      if now < allowAt then (tat, Refused(allowAt - now)) else (Some(start + p.emission), Admitted)
  }

  /** One event at a limiter of this rate. */
  function Reserved(p: Rate, tat: Option<int>, now: int): (Option<int>, Verdict) {
    Metered(p, Tolerance64(p), tat, now)
  }

  class Limiter {
    var emission: nat
    var tolerance: int
    var tat: Option<int>
    var burst: int

    function Rated(): Rate reads this { Rate(emission, burst) }

    ghost predicate Valid() reads this { tolerance == Tolerance64(Rated()) }

    /** `spacing` is None when the configured rate is not positive. */
    constructor (spacing: Option<nat>, burst: int)
      ensures Valid() && tat == None && this.burst == burst
      ensures emission == if spacing.Some? then spacing.value else BLOCKED
    {
      var e := if spacing.Some? then spacing.value else BLOCKED;
      this.emission, this.burst, tat := e, burst, None;
      tolerance := if burst < 1 then 0 else Wrap64(e * (burst - 1));
    }

    method Reserve(now: int) returns (allowed: bool, retryAfter: int)
      requires Valid()
      modifies this`tat
      ensures Valid() && (allowed ==> retryAfter == 0)
      ensures (tat, if allowed then Admitted else Refused(retryAfter)) == Metered(Rated(), tolerance, old(tat), now)
    {
      if burst < 1 { return false, 0; }
      var t := now;
      if tat.Some? && now <= tat.value { t := tat.value; }
      var allowAt := t + Wrap64(-tolerance);
      if now < allowAt { return false, allowAt - now; }
      tat := Some(t + emission);
      return true, 0;
    }
  }

  /** As long as the tolerance fits 64 bits this is the local step. */
  lemma ReservedIsLocal(p: Rate, tat: Option<int>, now: int)
    requires Tolerance(p) < TWO_63
    ensures Reserved(p, tat, now) == Local(p, tat, now)
  {
    assert 1 <= p.burst ==> 0 <= Tolerance(p);
  }

  /** A new limiter admits its first event if and only if it has room for one and its delay is not positive. */
  lemma FirstEventIff(p: Rate, now: int)
    ensures Reserved(p, None, now).1 == Admitted <==>
            1 <= p.burst && (0 <= Tolerance64(p) || Tolerance64(p) == -TWO_63)
  {
  }

  /** The TAT after the first n events of a history at a new limiter, in 64-bit arithmetic. */
  function MeteredAfter(p: Rate, ts: seq<int>, n: nat): Option<int>
    requires n <= |ts|
  {
    if n == 0 then None else Reserved(p, MeteredAfter(p, ts, n - 1), ts[n - 1]).0
  }

  ghost predicate RefusedAt(p: Rate, ts: seq<int>, i: nat)
    requires i < |ts|
  {
    Reserved(p, MeteredAfter(p, ts, i), ts[i]).1.Refused?
  }

  /** A limiter that refuses its first event refuses every event of every history. */
  lemma {:induction false} FirstDecides(p: Rate, ts: seq<int>, i: nat)
    requires i < |ts| && RefusedAt(p, ts, 0)
    ensures MeteredAfter(p, ts, i) == None && RefusedAt(p, ts, i)
  {
    FirstEventIff(p, ts[0]);
    FirstEventIff(p, ts[i]);
    if i > 0 { FirstDecides(p, ts, i - 1); }
  }

  /**
    A rate that is not positive is meant to block everything. Which bursts, of all that an int holds,
    make it do so: those whose tolerance wraps to a negative number, and these block for ever.
  */
  lemma BlockedIff(burst: int, ts: seq<int>)
    requires 1 <= burst < TWO_63 && ts != []
    ensures var m := burst - 1;
            (forall i :: 0 <= i < |ts| ==> RefusedAt(Rate(BLOCKED, burst), ts, i)) <==>
            (m % 4 == 0 && m > 0) || (m % 4 == 1 && m > BLOCKED) || (m % 4 == 3 && m <= BLOCKED)
  {
    var p := Rate(BLOCKED, burst);
    BlockedTolerance(burst);
    FirstEventIff(p, ts[0]);
    if RefusedAt(p, ts, 0) {
      forall i | 0 <= i < |ts| ensures RefusedAt(p, ts, i) { FirstDecides(p, ts, i); }
    }
  }

  lemma BlockedTolerance(burst: int)
    requires 1 <= burst < TWO_63
    ensures var m, tolerance := burst - 1, Tolerance64(Rate(BLOCKED, burst));
            && tolerance != -TWO_63
            && (tolerance < 0 <==>
                (m % 4 == 0 && m > 0) || (m % 4 == 1 && m > BLOCKED) || (m % 4 == 3 && m <= BLOCKED))
  {
    var m := burst - 1;
    var q, rest := m / 4, m % 4;
    assert m == 4 * q + rest;
    assert BLOCKED * m == q * (2 * TWO_63) + (rest * (BLOCKED + 1) - m);
    WrapShift(rest * (BLOCKED + 1) - m, q);
  }

  lemma WrapShift(x: int, q: int)
    ensures Wrap64(q * (2 * TWO_63) + x) == Wrap64(x)
  {
    var n := 2 * TWO_63;
    var y := x + TWO_63;
    assert y == n * (y / n) + y % n;
    assert y + q * n == n * (y / n + q) + y % n;
    assert (y + q * n) % n == y % n;
  }

  /** The TAT after the first n events of a history, from a given TAT. */
  function From(p: Rate, tat: Option<int>, ts: seq<int>, n: nat): Option<int>
    requires n <= |ts|
  {
    if n == 0 then tat else Local(p, From(p, tat, ts, n - 1), ts[n - 1]).0
  }

  function VerdictFrom(p: Rate, tat: Option<int>, ts: seq<int>, i: nat): Verdict
    requires i < |ts|
  {
    Local(p, From(p, tat, ts, i), ts[i]).1
  }

  /** The same for a new limiter. */
  function After(p: Rate, ts: seq<int>, n: nat): Option<int>
    requires n <= |ts|
  {
    From(p, None, ts, n)
  }

  function VerdictAt(p: Rate, ts: seq<int>, i: nat): Verdict
    requires i < |ts|
  {
    VerdictFrom(p, None, ts, i)
  }

  // ---------------------------------------------------------------------------
  // What the limiter enforces
  // ---------------------------------------------------------------------------

  ghost predicate AllAdmitted(p: Rate, ts: seq<int>, n: nat)
    requires n <= |ts|
  {
    forall i :: 0 <= i < n ==> VerdictAt(p, ts, i) == Admitted
  }

  /** Every stretch of the first n events keeps to the rate, up to the burst allowance. */
  ghost predicate Conforms(p: Rate, ts: seq<int>, n: nat)
    requires n <= |ts|
  {
    forall i, j :: 0 <= i <= j < n ==> Fits(p, ts[i], ts[j], j - i)
  }

  ghost predicate Fits(p: Rate, from: int, to: int, gaps: int) {
    gaps * p.emission <= to - from + (p.burst - 1) * p.emission
  }

  /** When the schedule started by an event at t reaches n events later. */
  function Due(p: Rate, t: int, n: int): int { t + n * p.emission }

  lemma DueStep(p: Rate, t: int, n: int)
    ensures Due(p, t, n + 1) == Due(p, t, n) + p.emission
    ensures Due(p, t, 0) == t
  {}

  /** The TAT after n admissions is the latest of the schedules started by each of them. */
  lemma {:induction false} TatIsLatestSchedule(p: Rate, ts: seq<int>, n: nat) returns (top: nat)
    requires 1 <= p.burst && 0 < n <= |ts| && AllAdmitted(p, ts, n)
    ensures top < n && After(p, ts, n) == Some(Due(p, ts[top], n - top))
    ensures forall i :: 0 <= i < n ==> Due(p, ts[i], n - i) <= Due(p, ts[top], n - top)
  {
    assert VerdictAt(p, ts, n - 1) == Admitted;
    DueStep(p, ts[n - 1], 0);
    if n == 1 {
      top := 0;
    } else {
      top := TatIsLatestSchedule(p, ts, n - 1);
      forall i | 0 <= i < n - 1 ensures Due(p, ts[i], n - i) == Due(p, ts[i], n - 1 - i) + p.emission {
        DueStep(p, ts[i], n - 1 - i);
      }
      if Due(p, ts[top], n - 1 - top) < ts[n - 1] { top := n - 1; }
    }
  }

  lemma Distribute(a: int, b: int, e: int)
    ensures (a + b) * e == a * e + b * e
    ensures e * (a + b) == e * a + e * b
    ensures a * e == e * a && b * e == e * b
  {}

  lemma FitsIffDue(p: Rate, from: int, to: int, gaps: int)
    requires 1 <= p.burst
    ensures Fits(p, from, to, gaps) <==> Due(p, from, gaps) - Tolerance(p) <= to
    ensures 0 <= Tolerance(p) && Due(p, from, p.burst - 1) == from + Tolerance(p)
  {
    Distribute(p.burst - 1, 0, p.emission);
  }

  lemma {:induction false} AdmitsNextIff(p: Rate, ts: seq<int>, n: nat)
    requires 1 <= p.burst && n < |ts| && AllAdmitted(p, ts, n)
    ensures VerdictAt(p, ts, n) == Admitted <==> forall i :: 0 <= i <= n ==> Fits(p, ts[i], ts[n], n - i)
  {
    FitsIffDue(p, ts[n], ts[n], 0);
    DueStep(p, ts[n], 0);
    if n > 0 {
      var top := TatIsLatestSchedule(p, ts, n);
      FitsIffDue(p, ts[top], ts[n], n - top);
      forall i | 0 <= i < n ensures Fits(p, ts[top], ts[n], n - top) ==> Fits(p, ts[i], ts[n], n - i) {
        FitsIffDue(p, ts[i], ts[n], n - i);
      }
    }
  }

  /**
    GCRA is exact: a schedule is admitted in full if and only if every stretch of it fits the
    rate and the burst. Neither direction needs the clock to be monotone.
  */
  lemma {:induction false} AdmittedIffConforming(p: Rate, ts: seq<int>, n: nat)
    requires 1 <= p.burst && n <= |ts|
    ensures AllAdmitted(p, ts, n) <==> Conforms(p, ts, n)
  {
    if n > 0 {
      AdmittedIffConforming(p, ts, n - 1);
      if AllAdmitted(p, ts, n - 1) {
        AdmitsNextIff(p, ts, n - 1);
        if VerdictAt(p, ts, n - 1) == Admitted {
          forall i, j | 0 <= i <= j < n ensures Fits(p, ts[i], ts[j], j - i) {}
        } else {
          var i :| 0 <= i <= n - 1 && !Fits(p, ts[i], ts[n - 1], n - 1 - i);
        }
      }
    }
  }

  /** Number of events admitted among positions lo..hi of a history. */
  function Admissions(p: Rate, ts: seq<int>, lo: nat, hi: nat): nat
    requires lo <= hi <= |ts|
    decreases hi - lo
  {
    if lo == hi then 0
    else Admissions(p, ts, lo, hi - 1) + (if VerdictAt(p, ts, hi - 1) == Admitted then 1 else 0)
  }

  lemma {:induction false} TatOutrunsAdmissions(p: Rate, ts: seq<int>, i: nat, j: nat)
    requires i < j <= |ts| && VerdictAt(p, ts, i) == Admitted
    ensures After(p, ts, j).Some? && Due(p, ts[i], Admissions(p, ts, i, j)) <= After(p, ts, j).value
    decreases j
  {
    if j == i + 1 {
      assert Admissions(p, ts, i, i) == 0;
      DueStep(p, ts[i], 0);
    } else {
      TatOutrunsAdmissions(p, ts, i, j - 1);
      DueStep(p, ts[i], Admissions(p, ts, i, j - 1));
    }
  }

  /**
    Sliding bound over any run, refusals included: k admissions between an admission at s and
    one at t satisfy (k - 1) * emission <= (t - s) + (burst - 1) * emission.
  */
  lemma {:induction false} SlidingBound(p: Rate, ts: seq<int>, i: nat, j: nat)
    requires i <= j < |ts|
    requires VerdictAt(p, ts, i) == Admitted && VerdictAt(p, ts, j) == Admitted
    ensures (Admissions(p, ts, i, j + 1) - 1) * p.emission <= ts[j] - ts[i] + (p.burst - 1) * p.emission
  {
    var k := Admissions(p, ts, i, j);
    assert Admissions(p, ts, i, j + 1) == k + 1;
    FitsIffDue(p, ts[i], ts[j], k);
    if i < j { TatOutrunsAdmissions(p, ts, i, j); } else { DueStep(p, ts[i], 0); }
    assert Fits(p, ts[i], ts[j], k);
  }

  /** The reported wait is exact: refusal at every earlier time, admission when it is over. */
  lemma ExactWait(p: Rate, tat: Option<int>, now: int)
    requires 1 <= p.burst && Local(p, tat, now).1.Refused?
    ensures var wait := Local(p, tat, now).1.retryAfter;
            && 0 < wait
            && Local(p, tat, now).0 == tat
            && (forall t :: now <= t < now + wait ==> Local(p, tat, t) == (tat, Refused(now + wait - t)))
            && (forall t :: now + wait <= t ==> Local(p, tat, t).1 == Admitted)
  {
    assert 0 <= Tolerance(p);
  }

  // ---------------------------------------------------------------------------
  // The Redis script
  // ---------------------------------------------------------------------------

  datatype Key = Absent | Present(tat: int, expiresAt: int)

  const MICROS_PER_SECOND := 1_000_000

  function TtlSeconds(burst: nat, period: nat): nat {
    var seconds := ((burst + 1) * period + MICROS_PER_SECOND - 1) / MICROS_PER_SECOND;
    if seconds < 1 then 1 else seconds
  }

  /** One atomic run of the script on a key that the server still holds or not. */
  function Script(burst: nat, period: nat, key: Key, now: int): (Key, Verdict) {
    var stored := if key.Present? then key.tat else now;
    var start := if stored < now then now else stored;
    var newTat := start + period;
    var allowAt := newTat - burst * period;
    if now < allowAt then (key, Refused(allowAt - now))
    else (Present(newTat, now + TtlSeconds(burst, period) * MICROS_PER_SECOND), Admitted)
  }

  /** An event at the store; `swept` says that the server has discarded the key by then. */
  datatype Event = Event(now: int, swept: bool)

  function Sweep(key: Key, e: Event): Key {
    if e.swept && key.Present? && key.expiresAt <= e.now then Absent else key
  }

  function KeyAfter(burst: nat, period: nat, es: seq<Event>, n: nat): Key
    requires n <= |es|
  {
    if n == 0 then Absent
    else Script(burst, period, Sweep(KeyAfter(burst, period, es, n - 1), es[n - 1]), es[n - 1].now).0
  }

  function ScriptVerdict(burst: nat, period: nat, es: seq<Event>, i: nat): Verdict
    requires i < |es|
  {
    Script(burst, period, Sweep(KeyAfter(burst, period, es, i), es[i]), es[i].now).1
  }

  function Times(es: seq<Event>): (ts: seq<int>)
    ensures |ts| == |es| && forall i {:trigger ts[i]} :: 0 <= i < |es| ==> ts[i] == es[i].now
  {
    seq(|es|, i requires 0 <= i < |es| => es[i].now)
  }

  ghost predicate Monotone(ts: seq<int>) {
    forall i, j :: 0 <= i <= j < |ts| ==> ts[i] <= ts[j]
  }

  /** The key carries the local TAT, or is gone and the local TAT has passed. */
  ghost predicate Mirrors(key: Key, tat: Option<int>, now: int) {
    match key
    case Absent => tat.None? || tat.value <= now
    case Present(t, x) => tat == Some(t) && t <= x
  }

  lemma TtlCoversBacklog(burst: nat, period: nat)
    ensures (burst + 1) * period <= TtlSeconds(burst, period) * MICROS_PER_SECOND
  {}

  /** No second less would do, unless there is only one. */
  lemma TtlIsLeast(burst: nat, period: nat)
    ensures 1 < TtlSeconds(burst, period) ==>
            (TtlSeconds(burst, period) - 1) * MICROS_PER_SECOND < (burst + 1) * period
  {}

  lemma ScriptStep(burst: nat, period: nat, key: Key, tat: Option<int>, now: int)
    requires 1 <= burst && Mirrors(key, tat, now)
    ensures Script(burst, period, key, now).1 == Local(Rate(period, burst), tat, now).1
    ensures Mirrors(Script(burst, period, key, now).0, Local(Rate(period, burst), tat, now).0, now)
  {
    TtlCoversBacklog(burst, period);
    Distribute(burst - 1, 1, period);
    Distribute(burst, 1, period);
  }

  lemma {:induction false} KeyMirrors(burst: nat, period: nat, es: seq<Event>, n: nat, now: int)
    requires 1 <= burst && n <= |es| && Monotone(Times(es)) && (n > 0 ==> es[n - 1].now <= now)
    ensures Mirrors(KeyAfter(burst, period, es, n), After(Rate(period, burst), Times(es), n), now)
  {
    if n > 0 {
      var ts, e := Times(es), es[n - 1];
      if n > 1 { assert ts[n - 2] <= ts[n - 1]; }
      KeyMirrors(burst, period, es, n - 1, e.now);
      var key := Sweep(KeyAfter(burst, period, es, n - 1), e);
      ScriptStep(burst, period, key, After(Rate(period, burst), ts, n - 1), e.now);
    }
  }

  /**
    The script and the local limiter give the same verdict and the same wait on every event
    of every run on a non-decreasing clock, whenever the server drops a key past its TTL.
  */
  lemma ScriptAgrees(burst: nat, period: nat, es: seq<Event>, i: nat)
    requires 1 <= burst && Monotone(Times(es)) && i < |es|
    ensures ScriptVerdict(burst, period, es, i) == VerdictAt(Rate(period, burst), Times(es), i)
  {
    var ts := Times(es);
    if i > 0 { assert ts[i - 1] <= ts[i]; }
    KeyMirrors(burst, period, es, i, es[i].now);
    var key := Sweep(KeyAfter(burst, period, es, i), es[i]);
    ScriptStep(burst, period, key, After(Rate(period, burst), ts, i), es[i].now);
  }

  class RedisStore {
    var keys: map<string, Key>

    constructor () ensures keys == map[] { keys := map[]; }

    /** The server discards a key whose time to live is over. */
    method Discard(key: string, now: int)
      modifies this
      ensures Held(key) == Sweep(old(Held(key)), Event(now, true))
      ensures forall k :: k != key ==> Held(k) == old(Held(k))
    {
      if key in keys && keys[key].Present? && keys[key].expiresAt <= now { keys := keys - {key}; }
    }

    function Held(key: string): Key reads this { if key in keys then keys[key] else Absent }

    /** Store.Allow; `emission` is None when the configured rate is not positive. */
    method Allow(key: string, emission: Option<nat>, burst: int, now: int) returns (v: Verdict)
      modifies this
      ensures emission.None? ==> v == Admitted && keys == old(keys)
      ensures emission.Some? ==>
                && (Held(key), v) == Script(if burst < 1 then 1 else burst, emission.value, old(Held(key)), now)
                && forall k :: k != key ==> Held(k) == old(Held(k))
    {
      if emission.None? { return Admitted; }
      var b := if burst < 1 then 1 else burst;
      var r := Script(b, emission.value, Held(key), now);
      if r.0.Present? { keys := keys[key := r.0]; }
      v := r.1;
    }
  }

  // ---------------------------------------------------------------------------
  // The in-memory store
  // ---------------------------------------------------------------------------

  /** One event of MemStore, on a burst already raised to at least one. */
  function Mem(emission: nat, burst: nat, tat: Option<int>, now: int): (Option<int>, Verdict)
    requires 1 <= burst
  {
    var newTat := Later(tat, now) + emission;
    var allowAt := newTat - emission * (burst - 1);
    if now < allowAt then (tat, Refused(allowAt - now)) else (Some(newTat), Admitted)
  }

  class MemStore {
    var buckets: map<string, int>

    constructor () ensures buckets == map[] { buckets := map[]; }

    function Tat(key: string): Option<int> reads this { if key in buckets then Some(buckets[key]) else None }

    method Allow(key: string, emission: Option<nat>, burst: int, now: int) returns (v: Verdict)
      modifies this
      ensures emission.None? ==> v == Admitted && buckets == old(buckets)
      ensures emission.Some? ==>
                && (Tat(key), v) == Mem(emission.value, if burst < 1 then 1 else burst, old(Tat(key)), now)
                && forall k :: k != key ==> Tat(k) == old(Tat(k))
    {
      if emission.None? { return Admitted; }
      var b := if burst < 1 then 1 else burst;
      var tolerance := emission.value * (b - 1);
      var tat := now;
      if key in buckets && now <= buckets[key] { tat := buckets[key]; }
      var newTat := tat + emission.value;
      var allowAt := newTat - tolerance;
      if now < allowAt { return Refused(allowAt - now); }
      buckets := buckets[key := newTat];
      return Admitted;
    }
  }

  function MemAfter(emission: nat, burst: nat, ts: seq<int>, n: nat): Option<int>
    requires 1 <= burst && n <= |ts|
  {
    if n == 0 then None else Mem(emission, burst, MemAfter(emission, burst, ts, n - 1), ts[n - 1]).0
  }

  function MemVerdict(emission: nat, burst: nat, ts: seq<int>, i: nat): Verdict
    requires 1 <= burst && i < |ts|
  {
    Mem(emission, burst, MemAfter(emission, burst, ts, i), ts[i]).1
  }

  lemma MemStep(emission: nat, burst: nat, tat: Option<int>, now: int)
    requires 2 <= burst
    ensures Mem(emission, burst, tat, now) == Local(Rate(emission, burst - 1), tat, now)
  {
    Distribute(burst - 2, 1, emission);
  }

  lemma {:induction false} MemAfterIsLocal(emission: nat, burst: nat, ts: seq<int>, n: nat)
    requires 2 <= burst && n <= |ts|
    ensures MemAfter(emission, burst, ts, n) == After(Rate(emission, burst - 1), ts, n)
  {
    if n > 0 {
      MemAfterIsLocal(emission, burst, ts, n - 1);
      MemStep(emission, burst, MemAfter(emission, burst, ts, n - 1), ts[n - 1]);
    }
  }

  /** With burst b >= 2 the store runs exactly like the local limiter with burst b - 1. */
  lemma MemStoreIsOneShort(emission: nat, burst: nat, ts: seq<int>, i: nat)
    requires 2 <= burst && i < |ts|
    ensures MemVerdict(emission, burst, ts, i) == VerdictAt(Rate(emission, burst - 1), ts, i)
  {
    MemAfterIsLocal(emission, burst, ts, i);
    MemStep(emission, burst, MemAfter(emission, burst, ts, i), ts[i]);
  }

  /** With burst 1 (or less, which is raised to 1) the store never admits anything. */
  lemma {:induction false} MemStoreOfOneIsShut(emission: nat, ts: seq<int>, i: nat)
    requires 0 < emission && i < |ts|
    ensures MemVerdict(emission, 1, ts, i) == Refused(emission) && MemAfter(emission, 1, ts, i) == None
  {
    if i > 0 { MemStoreOfOneIsShut(emission, ts, i - 1); }
  }

  ghost predicate MemMatchesLocal(emission: nat, burst: nat)
    requires 1 <= burst
  {
    forall ts: seq<int>, i :: 0 <= i < |ts| ==>
      MemVerdict(emission, burst, ts, i) == VerdictAt(Rate(emission, burst), ts, i)
  }

  function Together(n: nat, now: int): (ts: seq<int>)
    ensures |ts| == n && forall i :: 0 <= i < n ==> ts[i] == now
  {
    seq(n, i => now)
  }

  lemma {:induction false} BurstAtOnce(p: Rate, n: nat, now: int)
    requires 0 < n <= p.burst
    ensures AllAdmitted(p, Together(n, now), n)
    ensures After(p, Together(n, now), n) == Some(now + n * p.emission)
  {
    var ts := Together(n, now);
    forall i, j | 0 <= i <= j < n ensures Fits(p, ts[i], ts[j], j - i) { WithinBurst(p, now, j - i); }
    AdmittedIffConforming(p, ts, n);
    var top := TatIsLatestSchedule(p, ts, n);
    assert Due(p, ts[0], n - 0) <= Due(p, ts[top], n - top);
    DueGrows(p, now, n - top, n);
  }

  lemma WithinBurst(p: Rate, now: int, gaps: nat)
    requires gaps < p.burst
    ensures Fits(p, now, now, gaps)
  {
    DueGrows(p, 0, gaps, p.burst - 1);
  }

  lemma DueGrows(p: Rate, t: int, m: int, n: int)
    requires m <= n
    ensures Due(p, t, m) <= Due(p, t, n)
  {
    assert m * p.emission <= n * p.emission;
  }

  /** Contrary to its description the store matches the local limiter only at emission zero. */
  lemma MemStoreMatchesIff(emission: nat, burst: nat)
    requires 1 <= burst
    ensures MemMatchesLocal(emission, burst) <==> emission == 0
  {
    if emission == 0 {
      forall ts: seq<int>, i | 0 <= i < |ts|
        ensures MemVerdict(0, burst, ts, i) == VerdictAt(Rate(0, burst), ts, i)
      { ZeroEmission(burst, ts, i); }
    } else {
      MemStoreFallsShort(emission, burst);
    }
  }

  /** The burst-th of simultaneous events is admitted locally and refused by the store. */
  lemma MemStoreFallsShort(emission: nat, burst: nat)
    requires 1 <= burst && 0 < emission
    ensures exists i :: 0 <= i < burst && MemVerdict(emission, burst, Together(burst, 0), i) !=
                                          VerdictAt(Rate(emission, burst), Together(burst, 0), i)
  {
    var ts, short := Together(burst, 0), Rate(emission, burst - 1);
    BurstAtOnce(Rate(emission, burst), burst, 0);
    if burst == 1 {
      MemStoreOfOneIsShut(emission, ts, 0);
      assert VerdictAt(Rate(emission, burst), ts, 0) == Admitted;
    } else {
      assert !Fits(short, ts[0], ts[burst - 1], burst - 1) by { Distribute(burst - 2, 1, emission); }
      AdmittedIffConforming(short, ts, burst);
      var k :| 0 <= k < burst && VerdictAt(short, ts, k) != Admitted;
      MemStoreIsOneShort(emission, burst, ts, k);
      assert VerdictAt(Rate(emission, burst), ts, k) == Admitted;
    }
  }

  lemma {:induction false} ZeroEmission(burst: nat, ts: seq<int>, n: nat)
    requires 1 <= burst && n <= |ts|
    ensures MemAfter(0, burst, ts, n) == After(Rate(0, burst), ts, n)
  {
    if n > 0 { ZeroEmission(burst, ts, n - 1); }
  }

  // ---------------------------------------------------------------------------
  // Forgetting an idle limiter
  // ---------------------------------------------------------------------------

  ghost predicate SameFuture(p: Rate, a: Option<int>, b: Option<int>, ts: seq<int>) {
    forall i :: 0 <= i < |ts| ==> VerdictFrom(p, a, ts, i) == VerdictFrom(p, b, ts, i)
  }

  ghost predicate FromNow(ts: seq<int>, now: int) { forall i :: 0 <= i < |ts| ==> now <= ts[i] }

  /** A TAT that has passed decides nothing any more. */
  lemma PassedTatIsFresh(p: Rate, tat: Option<int>, ts: seq<int>, now: int)
    requires (tat.Some? ==> tat.value <= now) && FromNow(ts, now)
    ensures SameFuture(p, tat, None, ts)
  {
    forall i | 0 <= i < |ts| ensures VerdictFrom(p, tat, ts, i) == VerdictFrom(p, None, ts, i) {
      PassedTatStep(p, tat, ts, now, i);
    }
  }

  lemma {:induction false} PassedTatStep(p: Rate, tat: Option<int>, ts: seq<int>, now: int, n: nat)
    requires (tat.Some? ==> tat.value <= now) && FromNow(ts, now) && n <= |ts|
    ensures From(p, tat, ts, n) == From(p, None, ts, n) || (From(p, tat, ts, n) == tat && From(p, None, ts, n) == None)
  {
    if n > 0 { PassedTatStep(p, tat, ts, now, n - 1); }
  }

  lemma {:induction false} BacklogBound(p: Rate, ts: seq<int>, n: nat)
    requires 0 < n <= |ts| && Monotone(ts) && 1 <= p.burst
    ensures After(p, ts, n).Some? ==> After(p, ts, n).value <= Due(p, ts[n - 1], p.burst)
  {
    DueStep(p, ts[n - 1], p.burst - 1);
    FitsIffDue(p, ts[n - 1], ts[n - 1], p.burst - 1);
    if n > 1 {
      BacklogBound(p, ts, n - 1);
      assert ts[n - 2] <= ts[n - 1];
      assert Due(p, ts[n - 2], p.burst) <= Due(p, ts[n - 1], p.burst);
    }
    assert After(p, ts, n) == Local(p, After(p, ts, n - 1), ts[n - 1]).0;
  }

  lemma BusyRefuses(p: Rate, tat: int, now: int)
    requires 1 <= p.burst && now < tat
    ensures Local(p, Some(Due(p, tat, p.burst - 1)), now).1 == Refused(tat - now)
  {
    Distribute(p.burst - 1, 0, p.emission);
    assert 0 <= (p.burst - 1) * p.emission;
  }

  lemma BusyStep(p: Rate, tat: int, n: nat, now: int)
    requires now <= tat <= Due(p, tat, n) && Local(p, Some(Due(p, tat, n)), now).1 == Admitted
    ensures Local(p, Some(Due(p, tat, n)), now).0 == Some(Due(p, tat, n + 1)) && tat <= Due(p, tat, n + 1)
  {
    DueStep(p, tat, n);
  }

  lemma {:induction false} BusyStart(p: Rate, tat: int, ts: seq<int>, n: nat)
    requires 1 <= p.burst && n <= |ts|
    requires forall i :: 0 <= i < |ts| ==> ts[i] <= tat && VerdictFrom(p, Some(tat), ts, i) == Admitted
    ensures From(p, Some(tat), ts, n) == Some(Due(p, tat, n)) && tat <= Due(p, tat, n)
  {
    if n > 0 {
      BusyStart(p, tat, ts, n - 1);
      assert VerdictFrom(p, Some(tat), ts, n - 1) == Admitted;
      BusyStep(p, tat, n - 1, ts[n - 1]);
    } else {
      DueStep(p, tat, 0);
    }
  }

  /** A limiter with a TAT ahead of now does not admit a full burst at once. */
  lemma BusyRefusesOne(p: Rate, tat: int, now: int)
    requires 1 <= p.burst && now < tat
    ensures exists i :: 0 <= i < p.burst && VerdictFrom(p, Some(tat), Together(p.burst, now), i) != Admitted
  {
    var future, last := Together(p.burst, now), p.burst - 1;
    if forall i :: 0 <= i < p.burst ==> VerdictFrom(p, Some(tat), future, i) == Admitted {
      BusyStart(p, tat, future, last);
      assert VerdictFrom(p, Some(tat), future, last) == Local(p, Some(Due(p, tat, last)), now).1;
      BusyRefuses(p, tat, now);
    }
  }

  /** A TAT still ahead of now is missed as soon as a full burst arrives. */
  lemma BacklogIsObservable(p: Rate, tat: int, now: int)
    requires 1 <= p.burst && now < tat
    ensures !SameFuture(p, Some(tat), None, Together(p.burst, now))
  {
    var future := Together(p.burst, now);
    BurstAtOnce(p, p.burst, now);
    assert VerdictAt(p, future, p.burst - 1) == Admitted;
    BusyRefusesOne(p, tat, now);
    var i :| 0 <= i < p.burst && VerdictFrom(p, Some(tat), future, i) != Admitted;
    assert VerdictAt(p, future, i) == Admitted;
  }

  ghost predicate DropUnseen(p: Rate, tat: Option<int>, now: int) {
    forall future: seq<int> :: FromNow(future, now) ==> SameFuture(p, tat, None, future)
  }

  /** Dropping a limiter at `now` goes unnoticed exactly when its TAT is not ahead of now. */
  lemma DropUnseenIff(p: Rate, tat: Option<int>, now: int)
    requires 1 <= p.burst
    ensures DropUnseen(p, tat, now) <==> tat.None? || tat.value <= now
  {
    if tat.None? || tat.value <= now {
      forall future: seq<int> | FromNow(future, now) ensures SameFuture(p, tat, None, future) {
        PassedTatIsFresh(p, tat, future, now);
      }
    } else {
      BacklogIsObservable(p, tat.value, now);
      assert FromNow(Together(p.burst, now), now);
    }
  }

  /** Dropping any limiter idle for longer than `idle` changes no later verdict. */
  ghost predicate Forgettable(p: Rate, idle: nat) {
    forall past: seq<int>, now: int :: past != [] && Monotone(past) && now - past[|past| - 1] > idle
      ==> DropUnseen(p, After(p, past, |past|), now)
  }

  /** Eviction of idle limiters is unobservable exactly when the idle time covers the backlog. */
  lemma ForgettableIff(p: Rate, idle: nat)
    requires 1 <= p.burst
    ensures Forgettable(p, idle) <==> p.burst * p.emission <= idle + 1
  {
    if p.burst * p.emission <= idle + 1 {
      forall past: seq<int>, now: int | past != [] && Monotone(past) && now - past[|past| - 1] > idle
        ensures DropUnseen(p, After(p, past, |past|), now)
      {
        BacklogBound(p, past, |past|);
        DropUnseenIff(p, After(p, past, |past|), now);
      }
    } else {
      var past := Together(p.burst, 0);
      BurstAtOnce(p, p.burst, 0);
      DropUnseenIff(p, After(p, past, |past|), idle + 1);
      assert Monotone(past);
    }
  }
}
