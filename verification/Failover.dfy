/**
  Sequential failover of one request (internal/proxy/proxy.go). Everything the proxy does for the
  request is appended to a history; what it sees of the world (health, connection counts, breaker
  verdicts, exchanges, retry budget) comes from an environment read at an ever later tick, so
  all of it may change between any two steps.
*/
module Failover {
  import opened Options

  datatype Backend = Backend(id: nat, maxConns: int)

  datatype Request = Request(verb: string, idempotencyKey: string)

  predicate Idempotent(r: Request) {
    r.verb in {"GET", "HEAD", "PUT", "DELETE", "OPTIONS", "TRACE"} || r.idempotencyKey != ""
  }

  /** The methods that section 9.2.2 of RFC 9110 calls idempotent. */
  const RFC_IDEMPOTENT := {"GET", "HEAD", "OPTIONS", "TRACE", "PUT", "DELETE"}

  lemma IdempotentIff(r: Request)
    ensures Idempotent(r) <==> r.verb in RFC_IDEMPOTENT || r.idempotencyKey != ""
  {
  }

  /** One layer of a wrapped transport error. */
  datatype Link =
    | Op(op: string, timedOut: bool)
    | Net(timedOut: bool)
    | Refused
    | Deadline
    | Canceled
    | Opaque

  type Error = seq<Link>

  datatype Class = Unset | Ok | ServerError | Connect | Timeout

  /** The outermost network operation of the chain, searched from layer i. */
  function FirstOp(e: Error, i: nat): (r: Option<Link>)
    requires i <= |e|
    ensures r.Some? ==> r.value.Op?
    decreases |e| - i
  {
    if i == |e| then None else if e[i].Op? then Some(e[i]) else FirstOp(e, i + 1)
  }

  /** The outermost layer that can say whether it timed out, searched from layer i. */
  function FirstNet(e: Error, i: nat): (r: Option<Link>)
    requires i <= |e|
    ensures r.Some? ==> r.value.Op? || r.value.Net? || r.value.Refused?
    decreases |e| - i
  {
    if i == |e| then None
    else if e[i].Op? || e[i].Net? || e[i].Refused? then Some(e[i])
    else FirstNet(e, i + 1)
  }

  /** The connection was never established, so the backend cannot have seen the request. */
  predicate IsConnectError(e: Error) {
    var op := FirstOp(e, 0);
    (op.Some? && op.value.op == "dial") || Refused in e
  }

  /** Reference: the outermost network operation is a dial, or some layer says that it was refused. */
  ghost predicate NeverConnected(e: Error) {
    || (exists i :: 0 <= i < |e| && IsDial(e[i]) && forall j :: 0 <= j < i ==> !e[j].Op?)
    || (exists i :: 0 <= i < |e| && e[i].Refused?)
  }

  predicate IsDial(l: Link) { l.Op? && l.op == "dial" }

  lemma {:induction false} FirstOpIs(e: Error, i: nat)
    requires i <= |e|
    ensures FirstOp(e, i).None? ==> forall k :: i <= k < |e| ==> !e[k].Op?
    ensures FirstOp(e, i).Some? ==>
              exists k :: i <= k < |e| && e[k] == FirstOp(e, i).value && forall j :: i <= j < k ==> !e[j].Op?
    decreases |e| - i
  {
    if i < |e| && !e[i].Op? { FirstOpIs(e, i + 1); }
  }

  lemma ConnectErrorIff(e: Error)
    ensures IsConnectError(e) <==> NeverConnected(e)
  {
    FirstOpIs(e, 0);
    assert Refused in e <==> exists i :: 0 <= i < |e| && e[i].Refused?;
    if i :| 0 <= i < |e| && IsDial(e[i]) && forall j :: 0 <= j < i ==> !e[j].Op? {
      assert e[i].Op?;
    }
  }

  function Classify(e: Error, expired: bool): Class {
    if Deadline in e || Canceled in e || expired then Timeout
    else
      var net := FirstNet(e, 0);
      if net.Some? && !net.value.Refused? && net.value.timedOut then Timeout else Connect
  }

  predicate CanTimeOut(l: Link) { l.Op? || l.Net? || l.Refused? }

  lemma {:induction false} FirstNetIs(e: Error, i: nat)
    requires i <= |e|
    ensures FirstNet(e, i).None? ==> forall k :: i <= k < |e| ==> !CanTimeOut(e[k])
    ensures FirstNet(e, i).Some? ==>
              exists k :: i <= k < |e| && e[k] == FirstNet(e, i).value && forall j :: i <= j < k ==> !CanTimeOut(e[j])
    decreases |e| - i
  {
    if i < |e| && !CanTimeOut(e[i]) { FirstNetIs(e, i + 1); }
  }

  /** Reference: what is cut short, by whatever layer, or says itself that it timed out. */
  ghost predicate RanOutOfTime(e: Error, expired: bool) {
    || expired
    || (exists i :: 0 <= i < |e| && (e[i].Deadline? || e[i].Canceled?))
    || (exists i :: 0 <= i < |e| && (e[i].Op? || e[i].Net?) && e[i].timedOut
                    && forall j :: 0 <= j < i ==> !CanTimeOut(e[j]))
  }

  /** A failed exchange is a timeout or, whatever else went wrong, a connection error. */
  lemma ClassifyIff(e: Error, expired: bool)
    ensures Classify(e, expired) == if RanOutOfTime(e, expired) then Timeout else Connect
  {
    FirstNetIs(e, 0);
    assert Deadline in e || Canceled in e <==> exists i :: 0 <= i < |e| && (e[i].Deadline? || e[i].Canceled?);
    if i :| 0 <= i < |e| && (e[i].Op? || e[i].Net?) && e[i].timedOut && forall j :: 0 <= j < i ==> !CanTimeOut(e[j]) {
      assert CanTimeOut(e[i]);
    }
  }

  /**
    One request sent to one backend. `reached` is what really happened at the other end, which the
    proxy does not see; `wrote` says that part of a response had gone to the client already.
  */
  datatype Exchange =
    | Responded(serverError: bool)
    | Failed(error: Error, expired: bool, wrote: bool, reached: bool)
    | NoProxy

  function ClassOf(x: Exchange): Class {
    match x
    case Responded(serverError) => if serverError then ServerError else Ok
    case Failed(error, expired, _, _) => Classify(error, expired)
    case NoProxy => Connect
  }

  /** What the class of an exchange says about it. */
  lemma ClassIff(x: Exchange)
    ensures ClassOf(x) == Ok <==> x == Responded(false)
    ensures ClassOf(x) == ServerError <==> x == Responded(true)
    ensures ClassOf(x) == Timeout <==> x.Failed? && RanOutOfTime(x.error, x.expired)
    ensures ClassOf(x) == Connect <==> x.NoProxy? || (x.Failed? && !RanOutOfTime(x.error, x.expired))
  {
    if x.Failed? { ClassifyIff(x.error, x.expired); }
  }

  function ErrorOf(x: Exchange): Error { if x.Failed? then x.error else [Opaque] }

  predicate Delivered(x: Exchange) { x.Responded? || (x.Failed? && x.reached) }

  predicate Answered(x: Exchange) { x.Responded? || (x.Failed? && x.wrote) }

  datatype Config = Config(maxAttempts: int, retryOn: set<Class>, tripOn: set<Class>)

  datatype Environment = Environment(
    healthy: nat -> seq<Backend>,
    conns: (nat, Backend) -> int,
    allow: (nat, Backend) -> bool,
    exchange: nat -> Exchange,
    budget: nat -> bool)

  /** A failed dial means what it says. */
  ghost predicate Honest(env: Environment) {
    forall t :: NeverConnected(ErrorOf(env.exchange(t))) ==> !Delivered(env.exchange(t))
  }

  /** The backends a request can ever be offered. */
  ghost predicate Within(env: Environment, universe: set<Backend>) {
    forall t, b :: b in env.healthy(t) ==> b in universe
  }

  // ----- What happened to a request ----------------------------------------------------------

  datatype Status = BadGateway | Bulkhead | NoBackends

  datatype Event =
    | Reserved(b: Backend)
    | Attempted(b: Backend)
    | Sent(b: Backend, x: Exchange)
    | Released(b: Backend)
    | Recorded(b: Backend, failure: bool)
    | Skipped(b: Backend, full: bool)
    | Replied(status: Status)

  /** The primary arrives already reserved by the balancer. */
  datatype History = Begin(primary: Backend) | Then(past: History, latest: Event)

  /**
    What a history amounts to: `sound` when only a held backend was ever used or given back and
    never two were held at once; `answers` counts what started something the client can see.
  */
  datatype Tally = Tally(
    sound: bool,
    holding: Option<Backend>,
    reserved: seq<Backend>,
    released: seq<Backend>,
    attempts: nat,
    records: nat,
    exchanges: nat,
    last: Option<Exchange>,
    deliveries: nat,
    answers: nat,
    sawFull: bool)

  function Count(t: Tally, e: Event): Tally {
    match e
    case Reserved(b) =>
      t.(sound := t.sound && t.holding == None, holding := Some(b), reserved := t.reserved + [b])
    case Released(b) =>
      t.(sound := t.sound && t.holding == Some(b), holding := None, released := t.released + [b])
    case Attempted(b) =>
      t.(sound := t.sound && t.holding == Some(b), attempts := t.attempts + 1)
    case Sent(b, x) =>
      t.(sound := t.sound && t.holding == Some(b), exchanges := t.exchanges + 1, last := Some(x),
         deliveries := t.deliveries + (if x.Responded? || (x.Failed? && x.reached) then 1 else 0),
         answers := t.answers + (if x.Responded? || (x.Failed? && x.wrote) then 1 else 0))
    case Recorded(_, _) =>
      t.(sound := t.sound && t.holding == None, records := t.records + 1)
    case Skipped(b, full) =>
      t.(sound := t.sound && t.holding == Some(b), sawFull := t.sawFull || full)
    case Replied(_) =>
      t.(sound := t.sound && t.holding == None, answers := t.answers + 1)
  }

  function Of(h: History): Tally {
    match h
    case Begin(primary) => Tally(true, Some(primary), [primary], [], 0, 0, 0, None, 0, 0, false)
    case Then(past, e) => Count(Of(past), e)
  }

  predicate Balanced(t: Tally) {
    t.reserved == t.released + if t.holding.Some? then [t.holding.value] else []
  }

  lemma BalancedStep(t: Tally, e: Event)
    requires Count(t, e).sound && Balanced(t)
    ensures t.sound && Balanced(Count(t, e))
  {
    if e.Reserved? || e.Released? { assert Count(t, e).reserved + [] == Count(t, e).reserved; }
  }

  /** A sound history gives back, in order, everything it reserved except what it still holds. */
  lemma {:induction false} ReleasedExactlyOnce(h: History)
    requires Of(h).sound
    ensures Balanced(Of(h))
  {
    if h.Then? {
      assert Of(h) == Count(Of(h.past), h.latest);
      assert Of(h.past).sound;
      ReleasedExactlyOnce(h.past);
      BalancedStep(Of(h.past), h.latest);
    }
  }

  // ----- One backend -------------------------------------------------------------------------

  predicate OverCap(env: Environment, t: nat, b: Backend) {
    b.maxConns > 0 && env.conns(t, b) > b.maxConns
  }

  predicate AtCap(env: Environment, t: nat, b: Backend) {
    b.maxConns > 0 && env.conns(t, b) >= b.maxConns
  }

  predicate Available(env: Environment, t: nat, b: Backend) {
    !OverCap(env, t, b) && env.allow(t, b)
  }

  function Retries(cfg: Config, r: Request): int { if Idempotent(r) then cfg.maxAttempts else 0 }

  /** The k-th exchange of an attempt begun at `now` failed unseen, in a retried class, within budget. */
  predicate Retried(env: Environment, cfg: Config, now: nat, k: nat) {
    var x := env.exchange(now + 2 * k);
    !Answered(x) && ClassOf(x) in cfg.retryOn && env.budget(now + 2 * k + 1)
  }

  /** The attempt makes exactly n exchanges: it goes on while it may, and no longer. */
  predicate MadeExchanges(env: Environment, cfg: Config, retries: nat, now: nat, n: nat) {
    && 1 <= n <= retries + 1
    && (forall k: nat :: k < n - 1 ==> Retried(env, cfg, now, k))
    && (n == retries + 1 || !Retried(env, cfg, now, n - 1))
  }

  /** Conditions and limit leave exactly one number of exchanges. */
  lemma MadeExchangesOnce(env: Environment, cfg: Config, retries: nat, now: nat, n: nat, m: nat)
    requires MadeExchanges(env, cfg, retries, now, n) && MadeExchanges(env, cfg, retries, now, m)
    ensures n == m
  {
    var lastOfN: nat, lastOfM: nat := n - 1, m - 1;
    assert n < m ==> Retried(env, cfg, now, lastOfN);
    assert m < n ==> Retried(env, cfg, now, lastOfM);
  }

  /**
    The documented limit counts the first exchange: an idempotent request may be sent to one backend
    max_attempts times. It is sent once more exactly when each of those exchanges is retried.
  */
  lemma ExceedsTheLimitIff(env: Environment, cfg: Config, r: Request, now: nat, n: nat)
    requires Idempotent(r) && cfg.maxAttempts >= 0 && MadeExchanges(env, cfg, Retries(cfg, r), now, n)
    ensures n > cfg.maxAttempts <==> forall k: nat :: k < cfg.maxAttempts ==> Retried(env, cfg, now, k)
    ensures n > cfg.maxAttempts ==> n == cfg.maxAttempts + 1
  {
    assert n <= cfg.maxAttempts ==> !Retried(env, cfg, now, n - 1);
  }

  /** A backend that refuses every connection is tried max_attempts + 1 times, for every such limit. */
  lemma RefusedOnceTooOften(cfg: Config, r: Request, env: Environment, now: nat, n: nat)
    requires Idempotent(r) && cfg.maxAttempts >= 0 && Connect in cfg.retryOn
    requires forall t :: env.exchange(t) == Failed([Refused], false, false, false) && env.budget(t)
    requires MadeExchanges(env, cfg, Retries(cfg, r), now, n)
    ensures n == cfg.maxAttempts + 1
  {
    var refused := Failed([Refused], false, false, false);
    assert FirstNet(refused.error, 0) == Some(Refused) && ClassOf(refused) == Connect;
    forall k: nat ensures Retried(env, cfg, now, k) { assert env.exchange(now + 2 * k) == refused; }
    ExceedsTheLimitIff(env, cfg, r, now, n);
  }

  /** Every exchange after the first follows one that failed unseen, and is paid for from the budget. */
  lemma RetriesArePaid(env: Environment, cfg: Config, retries: nat, now: nat, n: nat, k: nat)
    requires MadeExchanges(env, cfg, retries, now, n) && k + 1 < n
    ensures !Answered(env.exchange(now + 2 * k)) && ClassOf(env.exchange(now + 2 * k)) in cfg.retryOn
    ensures env.budget(now + 2 * k + 1)
  {
    assert Retried(env, cfg, now, k);
  }

  /** What a run of exchanges with one backend leaves alone. */
  predicate SameOutside(start: Tally, end: Tally) {
    && end.sound == start.sound
    && end.reserved == start.reserved
    && end.records == start.records
    && end.sawFull == start.sawFull
  }

  /** The end of an attempt whose last exchange was x. */
  predicate Reported(start: Tally, end: Tally, x: Exchange, error: Option<Error>, kind: Class, written: bool) {
    && end.last == Some(x)
    && kind == ClassOf(x)
    && error == (if x.Responded? then None else Some(ErrorOf(x)))
    && written == (x.Failed? && x.wrote)
    && end.answers == start.answers + if Answered(x) then 1 else 0
  }

  /** The history after the first n exchanges of an attempt begun at `now`. */
  function AfterExchanges(env: Environment, b: Backend, start: History, now: nat, n: nat): History {
    if n == 0 then start
    else Then(AfterExchanges(env, b, start, now, n - 1), Sent(b, env.exchange(now + 2 * n - 2)))
  }

  lemma {:induction false} ExchangesTally(env: Environment, cfg: Config, b: Backend, start: History, now: nat, n: nat)
    requires Of(start).sound && Of(start).holding == Some(b)
    requires forall k: nat :: k < n - 1 ==> Retried(env, cfg, now, k)
    ensures var end := Of(AfterExchanges(env, b, start, now, n));
            && end.holding == Some(b) && SameOutside(Of(start), end)
            && end.attempts == Of(start).attempts && end.exchanges == Of(start).exchanges + n
            && (n > 0 ==> end.last == Some(env.exchange(now + 2 * n - 2)))
            && (n > 0 && Answered(env.exchange(now + 2 * n - 2)) ==> end.answers == Of(start).answers + 1)
            && (n == 0 || !Answered(env.exchange(now + 2 * n - 2)) ==> end.answers == Of(start).answers)
  {
    if n > 0 {
      ExchangesTally(env, cfg, b, start, now, n - 1);
      assert n > 1 ==> Retried(env, cfg, now, n - 2);
    }
  }

  /** The exchanges of one attempt, the first and up to `retries` more. */
  method MakeExchanges(env: Environment, cfg: Config, retries: nat, b: Backend, start: History, now: nat)
    returns (log: History, t: nat, n: nat, x: Exchange)
    ensures t >= now && MadeExchanges(env, cfg, retries, now, n)
    ensures log == AfterExchanges(env, b, start, now, n) && x == env.exchange(now + 2 * n - 2)
  {
    log, t, n, x := start, now, 0, NoProxy;
    while n <= retries
      invariant t == (if n == 0 then now else now + 2 * n - 1) && n <= retries + 1
      invariant log == AfterExchanges(env, b, start, now, n)
      invariant n > 0 ==> x == env.exchange(now + 2 * n - 2) && !Answered(x) && ClassOf(x) in cfg.retryOn
      invariant forall k: nat :: k < n - 1 ==> Retried(env, cfg, now, k)
    {
      if n > 0 {
        if !env.budget(t) { break; }
        t := t + 1;
      }
      x := env.exchange(t);
      log := Then(log, Sent(b, x));
      t, n := t + 1, n + 1;
      if Answered(x) || ClassOf(x) !in cfg.retryOn { break; }
    }
  }

  /** Sends the request to a reserved backend, retrying there, and releases the reservation. */
  method AttemptBackend(env: Environment, cfg: Config, r: Request, b: Backend, start: History, now: nat)
    returns (log: History, t: nat, error: Option<Error>, kind: Class, written: bool)
    requires Of(start).sound && Of(start).holding == Some(b)
    ensures t >= now && Of(log).holding == None && SameOutside(Of(start), Of(log))
    ensures Of(log).attempts == Of(start).attempts + 1 && Of(log).exchanges >= Of(start).exchanges
    ensures Retries(cfg, r) >= 0 ==>
              var n := Of(log).exchanges - Of(start).exchanges;
              && MadeExchanges(env, cfg, Retries(cfg, r), now, n)
              && Reported(Of(start), Of(log), env.exchange(now + 2 * n - 2), error, kind, written)
    ensures Retries(cfg, r) < 0 ==>
              && kind == Unset && error == None
              && Of(log).exchanges == Of(start).exchanges && Of(log).answers == Of(start).answers
    ensures !Idempotent(r) ==>
              Of(log).deliveries == Of(start).deliveries + if Delivered(env.exchange(now)) then 1 else 0
  {
    log, t := Then(start, Attempted(b)), now;
    error, kind, written := None, Unset, false;
    if Retries(cfg, r) >= 0 {
      var n, x;
      ghost var begun := log;
      log, t, n, x := MakeExchanges(env, cfg, Retries(cfg, r), b, log, t);
      ExchangesTally(env, cfg, b, begun, now, n);
      error, kind := if x.Responded? then None else Some(ErrorOf(x)), ClassOf(x);
      written := x.Failed? && x.wrote;
    }
    log := Then(log, Released(b));
  }

  predicate Eligible(env: Environment, t: nat, tried: set<Backend>, b: Backend) {
    b !in tried && !AtCap(env, t, b)
  }

  /** The first healthy backend not tried yet and below its cap. */
  method ReserveAlternate(env: Environment, tried: set<Backend>, t: nat) returns (found: Option<Backend>)
    ensures found == None ==> forall b :: b in env.healthy(t) ==> !Eligible(env, t, tried, b)
    ensures found.Some? ==>
              exists k :: && 0 <= k < |env.healthy(t)| && env.healthy(t)[k] == found.value
                          && Eligible(env, t, tried, found.value)
                          && forall j :: 0 <= j < k ==> !Eligible(env, t, tried, env.healthy(t)[j])
  {
    var bs := env.healthy(t);
    for i := 0 to |bs|
      invariant forall j :: 0 <= j < i ==> !Eligible(env, t, tried, bs[j])
    {
      if Eligible(env, t, tried, bs[i]) { return Some(bs[i]); }
    }
    return None;
  }

  // ----- The whole request -------------------------------------------------------------------

  ghost predicate NoRepeats(bs: seq<Backend>) {
    forall i, j :: 0 <= i < j < |bs| ==> bs[i] != bs[j]
  }

  /** No healthy backend is left that was neither used by this request nor at its cap. */
  ghost predicate Exhausted(env: Environment, t: nat, used: seq<Backend>) {
    forall b :: b in env.healthy(t) ==> b in used || AtCap(env, t, b)
  }

  /** One of these backends was found over its cap. */
  ghost predicate SomeFull(env: Environment, used: seq<Backend>) {
    exists t: nat, b :: b in used && OverCap(env, t, b)
  }

  function Verdict(t: Tally): Status {
    if t.exchanges > 0 then BadGateway else if t.sawFull then Bulkhead else NoBackends
  }

  /** The last exchange may have reached its backend, so that replaying it is not safe. */
  ghost predicate Unsafe(r: Request, t: Tally) {
    !Idempotent(r) && t.last.Some? && !NeverConnected(ErrorOf(t.last.value))
  }

  /** Every reservation is of another backend, and each admitted attempt was recorded once. */
  ghost predicate Tidy(t: Tally, tried: set<Backend>) {
    && t.sound && t.reserved != [] && NoRepeats(t.reserved)
    && (forall b :: b in tried <==> b in t.reserved)
    && t.records == t.attempts
  }

  /** Nothing has been answered, and nothing was delivered that must not be sent again. */
  ghost predicate Open(env: Environment, cfg: Config, r: Request, t: Tally) {
    && t.answers == 0
    && (Retries(cfg, r) < 0 ==> t.attempts == 0)
    && (Honest(env) && !Idempotent(r) ==> t.deliveries == 0)
  }

  /** The most exchanges that a number of attempts can make. */
  function Allowance(retries: int, attempts: nat): int { (retries + 1) * attempts }

  lemma AllowanceStep(retries: int, attempts: nat)
    ensures Allowance(retries, attempts + 1) == Allowance(retries, attempts) + retries + 1
  {
  }

  predicate Metered(cfg: Config, r: Request, t: Tally) {
    if Retries(cfg, r) < 0 then t.exchanges == 0 else t.exchanges <= Allowance(Retries(cfg, r), t.attempts)
  }

  datatype Next = Finish | GiveUp | GoOn

  /** Leaves a reserved backend that is not available alone and releases it. */
  method Skip(env: Environment, b: Backend, start: History, now: nat) returns (log: History)
    requires Of(start).sound && Of(start).holding == Some(b)
    ensures Of(log) == Of(start).(holding := None, released := Of(start).released + [b],
                                  sawFull := Of(start).sawFull || OverCap(env, now, b))
  {
    log := Then(Then(start, Skipped(b, OverCap(env, now, b))), Released(b));
  }

  /** What an attempt and its record with the breaker make of a request still open. */
  ghost predicate Attempting(env: Environment, cfg: Config, r: Request, start: Tally, end: Tally, next: Next) {
    && SameOutside(start, end.(records := start.records)) && end.records == start.records + 1
    && end.attempts == start.attempts + 1 && end.holding == None
    && (next.GoOn? ==> Open(env, cfg, r, end))
    && (next.GiveUp? ==> end.answers == 0 && Unsafe(r, end) && end.exchanges > 0)
    && (next.Finish? ==> end.answers == if Retries(cfg, r) < 0 then 0 else 1)
    && (Honest(env) && !Idempotent(r) ==> end.deliveries <= 1)
  }

  /** Attempts an available backend, which releases it, and records the outcome. */
  method Attempt(env: Environment, cfg: Config, r: Request, b: Backend, start: History, now: nat)
    returns (log: History, t: nat, next: Next)
    requires Of(start).sound && Of(start).holding == Some(b) && Open(env, cfg, r, Of(start))
    ensures t >= now && Attempting(env, cfg, r, Of(start), Of(log), next)
    ensures if Retries(cfg, r) < 0 then Of(log).exchanges == Of(start).exchanges
            else Of(log).exchanges <= Of(start).exchanges + Retries(cfg, r) + 1
    ensures log.Then? && log.latest == Recorded(b, Retries(cfg, r) >= 0 && Of(log).last.Some?
                                                   && ClassOf(Of(log).last.value) in cfg.tripOn)
  {
    var error, kind, written;
    log, t, error, kind, written := AttemptBackend(env, cfg, r, b, start, now);
    log := Then(log, Recorded(b, kind != Unset && kind in cfg.tripOn));
    if error.Some? { ConnectErrorIff(error.value); }
    next := if error == None || written then Finish
            else if !Idempotent(r) && !IsConnectError(error.value) then GiveUp
            else GoOn;
  }

  /** One turn of the outer loop: skip the reserved backend or attempt it; either way release it. */
  method TryBackend(env: Environment, cfg: Config, r: Request, b: Backend, start: History, now: nat,
                    tried: set<Backend>)
    returns (log: History, t: nat, next: Next)
    requires Of(start).holding == Some(b) && Tidy(Of(start), tried) && Open(env, cfg, r, Of(start))
    requires Metered(cfg, r, Of(start))
    ensures t > now && Tidy(Of(log), tried) && Of(log).holding == None && Metered(cfg, r, Of(log))
    ensures Of(log).reserved == Of(start).reserved
    ensures Available(env, now, b) ==> Attempting(env, cfg, r, Of(start), Of(log), next) && Of(log).attempts > 0
    ensures !Available(env, now, b) ==>
              && next.GoOn? && Open(env, cfg, r, Of(log)) && Of(log).attempts == Of(start).attempts
              && Of(log).sawFull == (Of(start).sawFull || OverCap(env, now + 1, b))
    ensures next.Finish? ==> log.Then? && log.latest.Recorded?
    ensures Of(log).attempts > Of(start).attempts <==>
            env.allow(now, b) && (b.maxConns <= 0 || env.conns(now, b) <= b.maxConns)
  {
    AllowanceStep(Retries(cfg, r), Of(start).attempts);
    if !Available(env, now, b) {
      log := Skip(env, b, start, now + 1);
      t, next := now + 2, GoOn;
    } else {
      log, t, next := Attempt(env, cfg, r, b, start, now + 1);
    }
  }

  /** Everything about a request but what it holds and has reserved. */
  predicate SameSoFar(a: Tally, b: Tally) {
    && a.attempts == b.attempts && a.records == b.records && a.exchanges == b.exchanges && a.last == b.last
    && a.deliveries == b.deliveries && a.answers == b.answers && a.sawFull == b.sawFull
  }

  /** Reserves the next candidate, or finds that there is none. */
  method TakeAlternate(env: Environment, tried: set<Backend>, t: nat, start: History)
    returns (log: History, b: Option<Backend>)
    requires Tidy(Of(start), tried) && Of(start).holding == None
    ensures b == Of(log).holding && SameSoFar(Of(log), Of(start))
    ensures b.Some? ==>
              && b.value !in tried && b.value in env.healthy(t) && !AtCap(env, t, b.value)
              && Tidy(Of(log), tried + {b.value}) && Of(log).reserved == Of(start).reserved + [b.value]
              && (b.value.maxConns <= 0 || env.conns(t, b.value) + 1 <= b.value.maxConns)
    ensures b == None ==> log == start && Exhausted(env, t, Of(log).reserved)
  {
    log := start;
    b := ReserveAlternate(env, tried, t);
    if b.Some? { log := Then(start, Reserved(b.value)); }
  }

  /**
    Every run ends. Nothing stays reserved, no backend is reserved twice, each admitted attempt is
    recorded once with the breaker. The client gets exactly one answer, unless a negative
    max_attempts left an idempotent request's attempt without any exchange: then nothing is written.
  */
  method ProxyRequest(env: Environment, cfg: Config, r: Request, primary: Backend, universe: set<Backend>, now: nat)
    returns (log: History)
    requires Within(env, universe) && primary in universe
    ensures Of(log).sound && Of(log).holding == None
    ensures Of(log).reserved != [] && Of(log).reserved[0] == primary && NoRepeats(Of(log).reserved)
    ensures Of(log).records == Of(log).attempts
    ensures Of(log).answers == if Retries(cfg, r) < 0 && Of(log).attempts > 0 then 0 else 1
    ensures Available(env, now, primary) ==> Of(log).attempts > 0
    ensures log.Then? && log.latest.Replied? ==>
              && (log.latest.status == BadGateway <==> Of(log).exchanges > 0)
              && (log.latest.status == Bulkhead <==> Of(log).exchanges == 0 && Of(log).sawFull)
              && (Unsafe(r, Of(log)) || exists t: nat :: Exhausted(env, t, Of(log).reserved))
    ensures log.Then? && log.latest == Replied(Bulkhead) ==> SomeFull(env, Of(log).reserved)
    ensures Metered(cfg, r, Of(log))
    ensures Honest(env) && r.verb !in RFC_IDEMPOTENT && r.idempotencyKey == "" ==> Of(log).deliveries <= 1
  {
    IdempotentIff(r);
    log := Begin(primary);
    var tried: set<Backend>, b, t := {}, Some(primary), now;
    while b.Some?
      invariant b == Of(log).holding && Of(log).reserved != [] && Of(log).reserved[0] == primary
      invariant b.Some? ==> b.value !in tried && b.value in universe && Tidy(Of(log), tried + {b.value})
      invariant b == None ==> Tidy(Of(log), tried) && exists s: nat :: Exhausted(env, s, Of(log).reserved)
      invariant Open(env, cfg, r, Of(log)) && (Of(log).sawFull ==> SomeFull(env, Of(log).reserved))
      invariant t >= now && Metered(cfg, r, Of(log))
      invariant if t == now then b == Some(primary) else Available(env, now, primary) ==> Of(log).attempts > 0
      decreases universe - tried
    {
      tried := tried + {b.value};
      var next;
      log, t, next := TryBackend(env, cfg, r, b.value, log, t, tried);
      if next.Finish? { return; }
      if next.GiveUp? { break; }
      log, b := TakeAlternate(env, tried, t, log);
      t := t + 1;
    }
    log := Then(log, Replied(Verdict(Of(log))));
  }

  /** The class "connect" does not tell a failed dial from a connection lost half way. */
  lemma ConnectClassIsCoarser()
    ensures exists x: Exchange :: ClassOf(x) == Connect && Delivered(x) && !IsConnectError(ErrorOf(x))
    ensures exists x: Exchange :: IsConnectError(ErrorOf(x)) && ClassOf(x) == Timeout
  {
    var reset := Failed([Op("read", false)], false, false, true);
    assert FirstOp(reset.error, 0) == Some(Op("read", false)) == FirstNet(reset.error, 0);
    assert ClassOf(reset) == Connect && Delivered(reset) && !IsConnectError(ErrorOf(reset));
    var slow := Failed([Op("dial", true)], false, false, false);
    assert IsConnectError(ErrorOf(slow)) && ClassOf(slow) == Timeout;
  }
}
