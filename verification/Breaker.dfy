/**
  The circuit breaker of internal/circuit/breaker.go: the three-state machine with its half-open
  probe counter, and the bucketed rolling window. Times are integers of one unit.
*/
module CircuitBreaking {
  import opened Backends
  import opened Options

  datatype State = Closed | Open | HalfOpen

  datatype Mode = Consecutive | Rolling

  /** The error rate threshold is the fraction rateNum / rateDen. */
  datatype Config = Config(mode: Mode, failureThreshold: int, successThreshold: int, timeout: int,
                           window: int, rateNum: int, rateDen: int, minRequests: int)
  {
    ghost predicate Normal() {
      1 <= failureThreshold && 1 <= successThreshold && 0 < window && 0 < rateNum <= rateDen && 0 < minRequests
    }
  }

  const TEN_SECONDS := 10_000_000_000

  /** The defaults of NewCircuitBreakerWithConfig. */
  function Normalised(c: Config): (n: Config)
    requires 0 < c.rateDen
    ensures n.Normal() && n.mode == c.mode && n.timeout == c.timeout
    ensures c.Normal() ==> n == c
    ensures c.failureThreshold < 1 ==> n.failureThreshold == 1
    ensures c.successThreshold < 1 ==> n.successThreshold == 1
    ensures c.window <= 0 ==> n.window == 10_000_000_000
    ensures c.minRequests <= 0 ==> n.minRequests == 20
    ensures !(0 < c.rateNum <= c.rateDen) ==> 2 * n.rateNum == n.rateDen
  {
    c.(failureThreshold := if c.failureThreshold < 1 then 1 else c.failureThreshold,
       successThreshold := if c.successThreshold < 1 then 1 else c.successThreshold,
       window := if c.window <= 0 then TEN_SECONDS else c.window,
       rateNum := if c.rateNum <= 0 || c.rateNum > c.rateDen then 1 else c.rateNum,
       rateDen := if c.rateNum <= 0 || c.rateNum > c.rateDen then 2 else c.rateDen,
       minRequests := if c.minRequests <= 0 then 20 else c.minRequests)
  }

  datatype Bucket = Unused | Bucket(start: int, successes: nat, failures: nat)

  /** The breaker's record of one backend; `buckets` is empty until the window is first used. */
  datatype Record = Record(state: State, failures: nat, successes: nat, inFlight: int,
                           lastFailure: Option<int>, closedAt: Option<int>, buckets: seq<Bucket>)

  const FRESH := Record(Closed, 0, 0, 0, None, None, [])

  // ---------------------------------------------------------------------------
  // The rolling window
  // ---------------------------------------------------------------------------

  const BUCKETS := 10

  function TruncatedDiv(a: int, b: int): int
    requires 0 < b
  {
    if 0 <= a then a / b else -((-a) / b)
  }

  function Slot(window: int, now: int): (s: nat)
    ensures s < BUCKETS
  {
    var width := if window / BUCKETS <= 0 then 1 else window / BUCKETS;
    var q := TruncatedDiv(now, width);
    var rem := q - BUCKETS * TruncatedDiv(q, BUCKETS);
    if rem < 0 then rem + BUCKETS else rem
  }

  function Width(window: int): nat { if window < 10 then 1 else window / 10 }

  /** Time is cut into stretches of a tenth of the window, which take turns at the ten slots. */
  lemma SlotIs(window: int, now: nat)
    ensures Slot(window, now) == now / Width(window) % 10
  {
  }

  function Ring(buckets: seq<Bucket>): (r: seq<Bucket>)
    ensures |buckets| == BUCKETS ==> r == buckets
    ensures buckets == [] ==> |r| == BUCKETS && forall i :: 0 <= i < BUCKETS ==> r[i] == Unused
  {
    if buckets == [] then seq(BUCKETS, i => Unused) else buckets
  }

  function Added(b: Bucket, window: int, now: int, ok: bool): Bucket {
    var live := if b.Unused? || now - b.start >= window then Bucket(now, 0, 0) else b;
    if ok then live.(successes := live.successes + 1) else live.(failures := live.failures + 1)
  }

  function Noted(buckets: seq<Bucket>, window: int, now: int, ok: bool): (r: seq<Bucket>)
    requires buckets == [] || |buckets| == BUCKETS
    ensures |r| == BUCKETS
  {
    var ring, s := Ring(buckets), Slot(window, now);
    ring[s := Added(ring[s], window, now, ok)]
  }

  predicate Live(b: Bucket, window: int, now: int) { b.Bucket? && now - b.start < window }

  function Total(buckets: seq<Bucket>, window: int, now: int, n: nat): nat
    requires n <= |buckets|
  {
    if n == 0 then 0
    else
      var b := buckets[n - 1];
      Total(buckets, window, now, n - 1) + if Live(b, window, now) then b.successes + b.failures else 0
  }

  function Failures(buckets: seq<Bucket>, window: int, now: int, n: nat): nat
    requires n <= |buckets|
  {
    if n == 0 then 0
    else
      var b := buckets[n - 1];
      Failures(buckets, window, now, n - 1) + if Live(b, window, now) then b.failures else 0
  }

  method WindowTotals(buckets: seq<Bucket>, window: int, now: int) returns (total: nat, failures: nat)
    ensures total == Total(buckets, window, now, |buckets|)
    ensures failures == Failures(buckets, window, now, |buckets|)
  {
    total, failures := 0, 0;
    for i := 0 to |buckets|
      invariant total == Total(buckets, window, now, i)
      invariant failures == Failures(buckets, window, now, i)
    {
      var b := buckets[i];
      if b.Unused? { continue; }
      if now - b.start >= window { continue; }
      total := total + b.successes + b.failures;
      failures := failures + b.failures;
    }
  }

  predicate ShouldTrip(c: Config, buckets: seq<Bucket>, now: int) {
    var total := Total(buckets, c.window, now, |buckets|);
    var failures := Failures(buckets, c.window, now, |buckets|);
    c.minRequests <= total && failures * c.rateDen > total * c.rateNum
  }

  // ---------------------------------------------------------------------------
  // The state machine of one backend
  // ---------------------------------------------------------------------------

  function AllowStep(c: Config, r: Record, now: int): (Record, bool) {
    match r.state
    case Open =>
      if r.lastFailure.None? || now - r.lastFailure.value >= c.timeout
      then (r.(state := HalfOpen, successes := 0, inFlight := 1), true)
      else (r, false)
    case HalfOpen =>
      if r.inFlight >= c.successThreshold then (r, false) else (r.(inFlight := r.inFlight + 1), true)
    case Closed => (r, true)
  }

  function SuccessStep(c: Config, r: Record, now: int): Record
    requires r.buckets == [] || |r.buckets| == BUCKETS
  {
    match r.state
    case HalfOpen =>
      if r.successes + 1 >= c.successThreshold
      then r.(state := Closed, failures := 0, successes := 0, inFlight := 0, closedAt := Some(now), buckets := [])
      else r.(inFlight := if r.inFlight > 0 then r.inFlight - 1 else r.inFlight, successes := r.successes + 1)
    case Closed =>
      r.(failures := 0, successes := 0,
         buckets := if c.mode.Rolling? then Noted(r.buckets, c.window, now, true) else r.buckets)
    case Open => r
  }

  /** The clock is read when the failure is stamped, when it is put in the window and when that is summed. */
  datatype Reading = Reading(stamped: int, noted: int, summed: int)

  function FailureStep(c: Config, r: Record, t: Reading): Record
    requires r.buckets == [] || |r.buckets| == BUCKETS
  {
    var s := r.(failures := r.failures + 1, lastFailure := Some(t.stamped));
    if r.state.HalfOpen? then s.(state := Open, successes := 0, inFlight := 0)
    else if c.mode.Rolling? then
      var w := s.(buckets := Noted(s.buckets, c.window, t.noted, false));
      if w.state.Closed? && ShouldTrip(c, w.buckets, t.summed) then w.(state := Open) else w
    else if s.state.Closed? && s.failures >= c.failureThreshold then s.(state := Open)
    else s
  }

  /** Opening on behalf of a sibling replica (redis_sync.go). */
  function ForceStep(r: Record, now: int): Record {
    if r.state.Open? then r else r.(state := Open, lastFailure := Some(now))
  }

  /** What the state-change hook is told, if it is called at all. */
  function Notice(from: State, to: State): Option<(State, State)> { if from == to then None else Some((from, to)) }

  class CircuitBreaker {
    const config: Config
    var records: map<Backend, Record>

    constructor (c: Config)
      requires 0 < c.rateDen
      ensures config == Normalised(c) && records == map[]
    {
      config, records := Normalised(c), map[];
    }

    function Of(b: Backend): Record reads this { if b in records then records[b] else FRESH }

    ghost predicate Valid() reads this {
      config.Normal() && forall b :: b in records ==> records[b].buckets == [] || |records[b].buckets| == BUCKETS
    }

    /** Everything about other backends is kept. */
    ghost predicate OnlyTouches(b: Backend, before: map<Backend, Record>) reads this {
      records == before[b := Of(b)]
    }

    method Allow(b: Backend, now: int) returns (ok: bool, fired: Option<(State, State)>)
      requires Valid()
      modifies this
      ensures Valid() && OnlyTouches(b, old(records))
      ensures (Of(b), ok) == AllowStep(config, old(Of(b)), now)
      ensures fired == Notice(old(Of(b)).state, Of(b).state)
    {
      var r := Of(b);
      ok, fired := true, None;
      match r.state {
        case Open =>
          if r.lastFailure.None? || now - r.lastFailure.value >= config.timeout {
            r := r.(state := HalfOpen, successes := 0, inFlight := 1);
            fired := Some((Open, HalfOpen));
          } else {
            ok := false;
          }
        case HalfOpen =>
          if r.inFlight >= config.successThreshold { ok := false; } else { r := r.(inFlight := r.inFlight + 1); }
        case Closed =>
      }
      records := records[b := r];
    }

    method RecordSuccess(b: Backend, now: int) returns (fired: Option<(State, State)>)
      requires Valid()
      modifies this, b`healthy
      ensures Valid() && OnlyTouches(b, old(records))
      ensures Of(b) == SuccessStep(config, old(Of(b)), now)
      ensures fired == Notice(old(Of(b)).state, Of(b).state)
      ensures b.healthy == (old(b.healthy) || fired.Some?)
    {
      var r := Of(b);
      fired := None;
      if r.state.HalfOpen? {
        if r.inFlight > 0 { r := r.(inFlight := r.inFlight - 1); }
        r := r.(successes := r.successes + 1);
        if r.successes >= config.successThreshold {
          r := r.(state := Closed, failures := 0, successes := 0, inFlight := 0, closedAt := Some(now), buckets := []);
          b.healthy, fired := true, Some((HalfOpen, Closed));
        }
      } else if r.state.Closed? {
        r := r.(failures := 0, successes := 0);
        if config.mode.Rolling? { r := r.(buckets := Noted(r.buckets, config.window, now, true)); }
      }
      records := records[b := r];
    }

    method RecordFailure(b: Backend, t: Reading) returns (fired: Option<(State, State)>)
      requires Valid()
      modifies this, b`healthy
      ensures Valid() && OnlyTouches(b, old(records))
      ensures Of(b) == FailureStep(config, old(Of(b)), t)
      ensures fired == Notice(old(Of(b)).state, Of(b).state)
      ensures b.healthy == (old(b.healthy) && fired.None?)
    {
      var r := Of(b).(failures := Of(b).failures + 1, lastFailure := Some(t.stamped));
      fired := None;
      if r.state.HalfOpen? {
        r := r.(state := Open, successes := 0, inFlight := 0);
        b.healthy, fired := false, Some((HalfOpen, Open));
      } else if config.mode.Rolling? {
        r := r.(buckets := Noted(r.buckets, config.window, t.noted, false));
        if r.state.Closed? {
          var total, failures := WindowTotals(r.buckets, config.window, t.summed);
          if config.minRequests <= total && failures * config.rateDen > total * config.rateNum {
            r := r.(state := Open);
            b.healthy, fired := false, Some((Closed, Open));
          }
        }
      } else if r.state.Closed? && r.failures >= config.failureThreshold {
        r := r.(state := Open);
        b.healthy, fired := false, Some((Closed, Open));
      }
      records := records[b := r];
    }

    /** Opens on behalf of a sibling. */
    method ForceOpen(b: Backend, now: int) returns (fired: Option<(State, State)>)
      requires Valid()
      modifies this, b`healthy
      ensures Valid() && OnlyTouches(b, old(records))
      ensures Of(b) == ForceStep(old(Of(b)), now) && fired == Notice(old(Of(b)).state, Of(b).state)
      ensures b.healthy == (old(b.healthy) && fired.None?)
    {
      var r := Of(b);
      fired := Notice(r.state, Open);
      if !r.state.Open? {
        r := r.(state := Open, lastFailure := Some(now));
        b.healthy := false;
      }
      records := records[b := r];
    }

    method Reset(b: Backend)
      requires Valid()
      modifies this
      ensures Valid() && records == old(records) - {b} && Of(b) == FRESH
    {
      records := records - {b};
    }
  }

  // ---------------------------------------------------------------------------
  // Runs: any sequence of calls
  // ---------------------------------------------------------------------------

  datatype Event =
    | Allow(now: int)
    | Success(now: int)
    | Failure(t: Reading)
    | ForceOpen(now: int)
    | Reset

  ghost predicate Shaped(r: Record) { r.buckets == [] || |r.buckets| == BUCKETS }

  function Step(c: Config, r: Record, e: Event): (r': Record)
    requires Shaped(r)
    ensures Shaped(r')
  {
    match e
    case Allow(now) => AllowStep(c, r, now).0
    case Success(now) => SuccessStep(c, r, now)
    case Failure(t) => FailureStep(c, r, t)
    case ForceOpen(now) => ForceStep(r, now)
    case Reset => FRESH
  }

  ghost predicate Took(c: Config, r: Record, e: Event, r': Record) { Shaped(r) && r' == Step(c, r, e) }

  /** A path from any record through any calls. */
  ghost predicate IsPath(c: Config, es: seq<Event>, rs: seq<Record>) {
    && |rs| == |es| + 1
    && (forall i :: 0 <= i < |rs| ==> Shaped(rs[i]))
    && (forall i :: 0 <= i < |es| ==> Took(c, rs[i], es[i], rs[i + 1]))
  }

  ghost predicate IsRun(c: Config, es: seq<Event>, rs: seq<Record>) {
    c.Normal() && IsPath(c, es, rs) && rs[0] == FRESH
  }

  ghost predicate Admits(c: Config, r: Record, e: Event) { e.Allow? && AllowStep(c, r, e.now).1 }

  /** A closed breaker lets every request through and is not changed by it. */
  lemma ClosedAdmits(c: Config, r: Record, now: int)
    requires r.state.Closed?
    ensures AllowStep(c, r, now) == (r, true)
  {
  }

  /** What every call keeps. */
  ghost predicate Inv(c: Config, r: Record) {
    && Shaped(r)
    && 0 <= r.inFlight <= c.successThreshold
    && (r.state.HalfOpen? ==> r.successes < c.successThreshold)
    && (r.state.Closed? && c.mode.Consecutive? ==> r.failures < c.failureThreshold)
    && (!r.state.Closed? ==> r.lastFailure.Some?)
  }

  lemma StepKeepsInv(c: Config, r: Record, e: Event)
    requires c.Normal() && Inv(c, r)
    ensures Inv(c, Step(c, r, e))
  {}

  /** Over every call sequence the probe counter stays between zero and the success threshold. */
  lemma {:induction false} ProbesBounded(c: Config, es: seq<Event>, rs: seq<Record>, n: nat)
    requires IsRun(c, es, rs) && n < |rs|
    ensures Inv(c, rs[n]) && 0 <= rs[n].inFlight <= c.successThreshold
  {
    if n > 0 {
      ProbesBounded(c, es, rs, n - 1);
      assert Took(c, rs[n - 1], es[n - 1], rs[n]);
      StepKeepsInv(c, rs[n - 1], es[n - 1]);
    }
  }

  // ---------------------------------------------------------------------------
  // One half-open episode
  // ---------------------------------------------------------------------------

  ghost function Admissions(c: Config, es: seq<Event>, rs: seq<Record>, lo: nat, hi: nat): nat
    requires lo <= hi <= |es| <= |rs|
    decreases hi
  {
    if lo == hi then 0 else Admissions(c, es, rs, lo, hi - 1) + if Admits(c, rs[hi - 1], es[hi - 1]) then 1 else 0
  }

  function Successes(es: seq<Event>, lo: nat, hi: nat): nat
    requires lo <= hi <= |es|
    decreases hi
  {
    if lo == hi then 0 else Successes(es, lo, hi - 1) + if es[hi - 1].Success? then 1 else 0
  }

  /** Call lo opens a half-open episode that is still going on in record hi. */
  ghost predicate Episode(c: Config, es: seq<Event>, rs: seq<Record>, lo: nat, hi: nat) {
    && IsPath(c, es, rs) && c.Normal() && lo < hi < |rs|
    && rs[lo].state.Open? && (forall k :: lo < k <= hi ==> rs[k].state.HalfOpen?)
  }

  lemma {:induction false} EpisodeLedger(c: Config, es: seq<Event>, rs: seq<Record>, lo: nat, hi: nat)
    requires Episode(c, es, rs, lo, hi)
    ensures rs[hi].successes == Successes(es, lo, hi) < c.successThreshold
    ensures 0 <= rs[hi].inFlight <= c.successThreshold
    ensures Admissions(c, es, rs, lo, hi) <= rs[hi].inFlight + rs[hi].successes
    ensures Admits(c, rs[lo], es[lo])
    decreases hi
  {
    assert Took(c, rs[hi - 1], es[hi - 1], rs[hi]);
    if hi - 1 > lo {
      EpisodeLedger(c, es, rs, lo, hi - 1);
    } else {
      assert Admissions(c, es, rs, lo, lo) == 0 && Successes(es, lo, lo) == 0;
    }
  }

  /** One half-open episode admits at most 2T - 1 requests. */
  lemma EpisodeAdmitsFew(c: Config, es: seq<Event>, rs: seq<Record>, lo: nat, hi: nat)
    requires Episode(c, es, rs, lo, hi)
    ensures 1 <= Admissions(c, es, rs, lo, hi) <= 2 * c.successThreshold - 1
  {
    EpisodeLedger(c, es, rs, lo, hi);
    AdmissionsGrow(c, es, rs, lo, lo + 1, hi);
    assert Admissions(c, es, rs, lo, lo) == 0;
  }

  lemma {:induction false} AdmissionsGrow(c: Config, es: seq<Event>, rs: seq<Record>, lo: nat, mid: nat, hi: nat)
    requires lo <= mid <= hi <= |es| <= |rs|
    ensures Admissions(c, es, rs, lo, mid) <= Admissions(c, es, rs, lo, hi)
    decreases hi
  {
    if mid < hi { AdmissionsGrow(c, es, rs, lo, mid, hi - 1); }
  }

  /** An episode ends closed exactly on its T-th success, and open exactly on a failure or a forced opening. */
  lemma EpisodeEnds(c: Config, es: seq<Event>, rs: seq<Record>, lo: nat, hi: nat)
    requires Episode(c, es, rs, lo, hi) && hi < |es| && !es[hi].Reset?
    ensures rs[hi + 1].state.Closed? <==> es[hi].Success? && Successes(es, lo, hi + 1) == c.successThreshold
    ensures rs[hi + 1].state.Open? <==> es[hi].Failure? || es[hi].ForceOpen?
    ensures rs[hi + 1].state.Closed? ==> rs[hi + 1].closedAt == Some(es[hi].now) && rs[hi + 1].failures == 0
  {
    EpisodeLedger(c, es, rs, lo, hi);
    assert Took(c, rs[hi], es[hi], rs[hi + 1]);
  }

  /** The bound on an episode is reached: T probes, then a fresh one after each of T - 1 successes. */
  lemma EpisodeBoundIsReached(c: Config, r: Record, now: int) returns (es: seq<Event>, rs: seq<Record>)
    requires c.Normal() && Shaped(r) && r.state.Open?
    requires r.lastFailure.Some? ==> now - r.lastFailure.value >= c.timeout
    ensures Episode(c, es, rs, 0, |es|) && rs[0] == r
    ensures Admissions(c, es, rs, 0, |es|) == 2 * c.successThreshold - 1
  {
    es, rs := [Allow(now)], [r, Step(c, r, Allow(now))];
    assert Took(c, rs[0], es[0], rs[1]);
    assert Admissions(c, es, rs, 0, 0) == 0;
    var T, k := c.successThreshold, 1;
    while k < T
      invariant 1 <= k <= T && Episode(c, es, rs, 0, |es|) && rs[0] == r
      invariant rs[|es|].inFlight == k && rs[|es|].successes == 0 && Admissions(c, es, rs, 0, |es|) == k
    {
      es, rs := Extend(c, es, rs, Allow(now));
      k := k + 1;
    }
    k := 0;
    while k < T - 1
      invariant 0 <= k <= T - 1 && Episode(c, es, rs, 0, |es|) && rs[0] == r
      invariant rs[|es|].inFlight == T && rs[|es|].successes == k && Admissions(c, es, rs, 0, |es|) == T + k
    {
      es, rs := Extend(c, es, rs, Success(now));
      es, rs := Extend(c, es, rs, Allow(now));
      k := k + 1;
    }
  }

  lemma Extend(c: Config, es: seq<Event>, rs: seq<Record>, e: Event) returns (es': seq<Event>, rs': seq<Record>)
    requires Episode(c, es, rs, 0, |es|) && Step(c, rs[|es|], e).state.HalfOpen?
    ensures es' == es + [e] && rs' == rs + [Step(c, rs[|es|], e)]
    ensures Episode(c, es', rs', 0, |es'|) && rs'[0] == rs[0] && rs'[|es'|] == Step(c, rs[|es|], e)
    ensures Admissions(c, es', rs', 0, |es'|) ==
            Admissions(c, es, rs, 0, |es|) + if Admits(c, rs[|es|], e) then 1 else 0
  {
    es', rs' := es + [e], rs + [Step(c, rs[|es|], e)];
    forall i | 0 <= i < |es'| ensures Took(c, rs'[i], es'[i], rs'[i + 1]) {
      if i < |es| { assert Took(c, rs[i], es[i], rs[i + 1]); }
    }
    AdmissionsOfPrefix(c, es, rs, es', rs', |es|);
  }

  lemma {:induction false} AdmissionsOfPrefix(c: Config, es: seq<Event>, rs: seq<Record>,
                                              es': seq<Event>, rs': seq<Record>, n: nat)
    requires n <= |es| <= |rs| && |es| <= |es'| <= |rs'|
    requires forall i :: 0 <= i < n ==> es[i] == es'[i] && rs[i] == rs'[i]
    ensures Admissions(c, es, rs, 0, n) == Admissions(c, es', rs', 0, n)
  {
    if n > 0 { AdmissionsOfPrefix(c, es, rs, es', rs', n - 1); }
  }

  // ---------------------------------------------------------------------------
  // Waiting while open
  // ---------------------------------------------------------------------------

  /** The latest failure recorded, or opening forced, before call n. */
  ghost function LatestFailure(es: seq<Event>, rs: seq<Record>, n: nat): Option<int>
    requires n <= |es| <= |rs|
  {
    if n == 0 then None
    else match es[n - 1]
      case Failure(t) => Some(t.stamped)
      case ForceOpen(now) => if rs[n - 1].state.Open? then LatestFailure(es, rs, n - 1) else Some(now)
      case Reset => None
      case _ => LatestFailure(es, rs, n - 1)
  }

  lemma {:induction false} LatestFailureIsStamped(c: Config, es: seq<Event>, rs: seq<Record>, n: nat)
    requires IsRun(c, es, rs) && n < |rs|
    ensures rs[n].lastFailure == LatestFailure(es, rs, n)
  {
    if n > 0 {
      LatestFailureIsStamped(c, es, rs, n - 1);
      assert Took(c, rs[n - 1], es[n - 1], rs[n]);
    }
  }

  /** An open breaker admits a request if and only if the timeout has passed since the latest failure. */
  lemma OpenAdmitsAfterTimeout(c: Config, es: seq<Event>, rs: seq<Record>, n: nat)
    requires IsRun(c, es, rs) && n < |es| && es[n].Allow? && rs[n].state.Open?
    ensures LatestFailure(es, rs, n).Some?
    ensures Admits(c, rs[n], es[n]) <==> es[n].now - LatestFailure(es, rs, n).value >= c.timeout
    ensures Admits(c, rs[n], es[n]) <==> rs[n + 1].state.HalfOpen?
    ensures !Admits(c, rs[n], es[n]) ==> rs[n + 1] == rs[n]
  {
    ProbesBounded(c, es, rs, n);
    LatestFailureIsStamped(c, es, rs, n);
    assert Took(c, rs[n], es[n], rs[n + 1]);
  }

  // ---------------------------------------------------------------------------
  // Tripping in consecutive mode
  // ---------------------------------------------------------------------------

  /** Outcomes recorded since the breaker last closed (or started); true stands for a failure. */
  ghost function SinceClosing(es: seq<Event>, rs: seq<Record>, n: nat): seq<bool>
    requires n <= |es| && n < |rs|
  {
    if n == 0 || es[n - 1].Reset? || (!rs[n - 1].state.Closed? && rs[n].state.Closed?) then []
    else if es[n - 1].Success? then SinceClosing(es, rs, n - 1) + [false]
    else if es[n - 1].Failure? then SinceClosing(es, rs, n - 1) + [true]
    else SinceClosing(es, rs, n - 1)
  }

  /** The last k outcomes are all failures. */
  ghost predicate EndsInFailures(os: seq<bool>, k: int) {
    0 <= k <= |os| && forall i :: |os| - k <= i < |os| ==> os[i]
  }

  lemma {:induction false} FailuresAreTheStreak(c: Config, es: seq<Event>, rs: seq<Record>, n: nat)
    requires IsRun(c, es, rs) && n < |rs| && rs[n].state.Closed?
    ensures var os := SinceClosing(es, rs, n);
            EndsInFailures(os, rs[n].failures) && !EndsInFailures(os, rs[n].failures + 1)
  {
    if n > 0 {
      assert Took(c, rs[n - 1], es[n - 1], rs[n]);
      if rs[n - 1].state.Closed? && !es[n - 1].Reset? {
        FailuresAreTheStreak(c, es, rs, n - 1);
        var os, os' := SinceClosing(es, rs, n - 1), SinceClosing(es, rs, n);
        var f := rs[n - 1].failures;
        if es[n - 1].Failure? {
          assert os' == os + [true];
          if EndsInFailures(os', f + 2) {
            forall i | |os| - (f + 1) <= i < |os| ensures os[i] { assert os'[i]; }
            assert false;
          }
        } else if es[n - 1].Success? {
          assert !os'[|os|];
        }
      }
    }
  }

  /**
    In consecutive mode a closed breaker trips on a failure exactly when the last F outcomes
    since closing are all failures, and never on any other recorded call.
  */
  lemma TripsOnConsecutiveFailures(c: Config, es: seq<Event>, rs: seq<Record>, n: nat)
    requires IsRun(c, es, rs) && n < |es| && c.mode.Consecutive? && rs[n].state.Closed? && !es[n].ForceOpen?
    ensures rs[n + 1].state.Open? <==>
            es[n].Failure? && EndsInFailures(SinceClosing(es, rs, n) + [true], c.failureThreshold)
    ensures rs[n + 1].state.Open? || rs[n + 1].state.Closed?
  {
    ProbesBounded(c, es, rs, n);
    FailuresAreTheStreak(c, es, rs, n);
    assert Took(c, rs[n], es[n], rs[n + 1]);
    var os, f := SinceClosing(es, rs, n), rs[n].failures;
    var os' := os + [true];
    if f + 1 >= c.failureThreshold {
      forall i | |os'| - c.failureThreshold <= i < |os'| ensures os'[i] {
        if i < |os| { assert os[i]; }
      }
    } else if EndsInFailures(os', c.failureThreshold) {
      forall i | |os| - (f + 1) <= i < |os| ensures os[i] { assert os'[i]; }
      assert false;
    }
  }
}
