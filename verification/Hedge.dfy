/**
  The hedged race (internal/proxy/proxy.go): the request's own goroutine against those of the
  attempts it launches. Attempt 0 is the primary's, the others are the extras', all reserved before
  the race. The result channel is the sequence of everything sent on it and the number received.
*/
module HedgedRace {
  import F = Failover
  import opened Options

  // ----- Before the race ---------------------------------------------------------------------

  predicate CanHedge(env: F.Environment, t: nat, primary: F.Backend, b: F.Backend) {
    b != primary && !F.AtCap(env, t, b) && env.allow(t, b)
  }

  /** The eligible ones among the first i healthy backends, in order. */
  function EligibleUpTo(env: F.Environment, t: nat, primary: F.Backend, i: nat): (r: seq<F.Backend>)
    requires i <= |env.healthy(t)|
    ensures |r| <= i
  {
    if i == 0 then []
    else
      var r := EligibleUpTo(env, t, primary, i - 1);
      var b := env.healthy(t)[i - 1];
      if CanHedge(env, t, primary, b) then r + [b] else r
  }

  /** Reference: another backend that the breaker lets through and that has room for one more connection. */
  ghost predicate MayRace(env: F.Environment, t: nat, primary: F.Backend, b: F.Backend) {
    b in env.healthy(t) && b != primary && env.allow(t, b) && (b.maxConns <= 0 || env.conns(t, b) + 1 <= b.maxConns)
  }

  lemma {:induction false} EligibleIff(env: F.Environment, t: nat, primary: F.Backend, n: nat)
    requires n <= |env.healthy(t)|
    ensures forall b :: b in EligibleUpTo(env, t, primary, n) ==> MayRace(env, t, primary, b)
    ensures forall i :: 0 <= i < n && MayRace(env, t, primary, env.healthy(t)[i]) ==>
                        env.healthy(t)[i] in EligibleUpTo(env, t, primary, n)
  {
    if n > 0 { EligibleIff(env, t, primary, n - 1); }
  }

  lemma {:induction false} EligibleGrows(env: F.Environment, t: nat, primary: F.Backend, i: nat, j: nat)
    requires i <= j <= |env.healthy(t)|
    ensures EligibleUpTo(env, t, primary, i) <= EligibleUpTo(env, t, primary, j)
  {
    if i < j { EligibleGrows(env, t, primary, i, j - 1); }
  }

  function Eligibles(env: F.Environment, t: nat, primary: F.Backend): seq<F.Backend> {
    EligibleUpTo(env, t, primary, |env.healthy(t)|)
  }

  /** Reserves the first n eligible backends, or all of them if there are fewer. */
  method ReserveHedgeBackends(env: F.Environment, t: nat, primary: F.Backend, n: nat) returns (out: seq<F.Backend>)
    ensures |out| <= n && out <= Eligibles(env, t, primary)
    ensures |out| == n || out == Eligibles(env, t, primary)
    ensures forall i :: 0 <= i < |out| ==> MayRace(env, t, primary, out[i])
    ensures |out| == n || forall b :: b in env.healthy(t) && MayRace(env, t, primary, b) ==> b in out
  {
    EligibleIff(env, t, primary, |env.healthy(t)|);
    out := [];
    var i, bs := 0, env.healthy(t);
    while i < |bs| && |out| < n
      invariant 0 <= i <= |bs| && |out| <= n && out == EligibleUpTo(env, t, primary, i)
    {
      if CanHedge(env, t, primary, bs[i]) { out := out + [bs[i]]; }
      i := i + 1;
    }
    EligibleGrows(env, t, primary, i, |bs|);
  }

  /**
    Whether to race at all. A race that does not start leaves nothing reserved besides the primary,
    which the sequential path then takes over.
  */
  method StartHedge(env: F.Environment, t: nat, primary: F.Backend, maxExtra: nat)
    returns (race: bool, extras: seq<F.Backend>)
    ensures race <==> F.Available(env, t, primary) && maxExtra > 0 && Eligibles(env, t + 1, primary) != []
    ensures race ==> extras != [] && extras <= Eligibles(env, t + 1, primary)
    ensures race ==> |extras| == maxExtra || extras == Eligibles(env, t + 1, primary)
    ensures !race ==> extras == []
  {
    if !F.Available(env, t, primary) { return false, []; }
    extras := ReserveHedgeBackends(env, t + 1, primary, maxExtra);
    race := extras != [];
  }

  /**
    The request's way in: only an idempotent request is ever raced. Any other one, and one that has
    nothing to race against, takes the sequential path with its primary still reserved.
  */
  method Dispatch(env: F.Environment, cfg: F.Config, r: F.Request, primary: F.Backend, universe: set<F.Backend>,
                  hedging: bool, maxExtra: nat)
    returns (race: bool, extras: seq<F.Backend>, log: F.History)
    requires F.Within(env, universe) && primary in universe
    ensures race ==> extras != [] && extras <= Eligibles(env, 1, primary)
    ensures race <==> && hedging && (r.verb in F.RFC_IDEMPOTENT || r.idempotencyKey != "")
                      && F.Available(env, 0, primary) && maxExtra > 0 && Eligibles(env, 1, primary) != []
    ensures !race ==> extras == []
    ensures !race ==> F.Of(log).sound && F.Of(log).holding == None && F.Of(log).reserved != []
    ensures !race ==> F.Of(log).reserved[0] == primary && F.NoRepeats(F.Of(log).reserved)
    ensures !race && F.Retries(cfg, r) >= 0 ==> F.Of(log).answers == 1
    ensures F.Honest(env) && r.verb !in F.RFC_IDEMPOTENT && r.idempotencyKey == "" ==>
              !race && F.Of(log).deliveries <= 1
  {
    F.IdempotentIff(r);
    race, extras, log := false, [], F.Begin(primary);
    if hedging && maxExtra > 0 && F.Idempotent(r) {
      race, extras := StartHedge(env, 0, primary, maxExtra);
    }
    if !race { log := F.ProxyRequest(env, cfg, r, primary, universe, 2); }
  }

  // ----- The race ----------------------------------------------------------------------------

  datatype Status = Waiting | Running | Sending(ok: bool) | Queued(at: nat)

  datatype Result = Result(who: nat, ok: bool)

  datatype Timer = Armed | Fired | Spent

  datatype Pc = Collecting | Launching | Draining | Releasing(next: nat) | Answering | Done

  datatype Reply = From(who: nat) | Status502

  /** `winner` is the position of the winning result among those sent. */
  datatype State = State(
    status: seq<Status>,
    released: seq<nat>,
    sent: seq<Result>,
    taken: nat,
    timer: Timer,
    pc: Pc,
    pending: int,
    launched: nat,
    extrasLaunched: bool,
    winner: Option<nat>,
    replies: seq<Reply>)

  datatype Step =
    | Finish(i: nat, ok: bool)
    | Send(i: nat)
    | Fire
    | TakeTimer
    | Receive
    | Launch
    | Leave
    | Drain
    | Drained
    | ReleaseNext
    | Answer

  /** The race begins with the primary's attempt launched. */
  function Initial(n: nat): State
    requires n >= 2
  {
    State([Running] + seq(n - 1, _ => Waiting), seq(n, _ => 0), [], 0, Armed, Collecting, 1, 1, false, None, [])
  }

  predicate Enabled(s: State, l: Step) {
    match l
    case Finish(i, _) => i < |s.status| && s.status[i].Running?
    case Send(i) => i < |s.status| && s.status[i].Sending?
    case Fire => s.timer == Armed
    case TakeTimer => s.pc == Collecting && s.pending > 0 && !s.extrasLaunched && s.timer == Fired
    case Receive => s.pc == Collecting && s.pending > 0 && s.taken < |s.sent|
    case Launch => s.pc == Launching
    case Leave => s.pc == Collecting && s.pending <= 0
    case Drain => s.pc == Draining && s.pending > 0 && s.taken < |s.sent|
    case Drained => s.pc == Draining && s.pending <= 0
    case ReleaseNext => s.pc.Releasing?
    case Answer => s.pc == Answering
  }

  function Bumped(counts: seq<nat>, i: nat): (r: seq<nat>)
    requires i < |counts|
  {
    counts[i := counts[i] + 1]
  }

  /** Taking the next result: the first one without an error wins. */
  function Taken(s: State): State
    requires s.taken < |s.sent|
  {
    var win := s.winner == None && s.sent[s.taken].ok;
    s.(pending := s.pending - 1, taken := s.taken + 1, winner := if win then Some(s.taken) else s.winner)
  }

  /** The winner's recorded response is copied out; without a winner the client gets a 502. */
  function ReplyOf(s: State): Reply {
    if s.winner.Some? && s.winner.value < |s.sent| then From(s.sent[s.winner.value].who) else Status502
  }

  function Next(s: State, l: Step): State
    requires Enabled(s, l) && |s.released| == |s.status|
  {
    match l
    case Finish(i, ok) => s.(status := s.status[i := Sending(ok)], released := Bumped(s.released, i))
    case Send(i) => s.(status := s.status[i := Queued(|s.sent|)], sent := s.sent + [Result(i, s.status[i].ok)])
    case Fire => s.(timer := Fired)
    case TakeTimer => s.(timer := Spent, extrasLaunched := true, pc := Launching)
    case Receive =>
      if s.extrasLaunched then Taken(s)
      else if Taken(s).winner != s.winner then Taken(s).(pc := Draining)
      else Taken(s).(extrasLaunched := true, pc := Launching)
    case Launch =>
      if s.launched < |s.status| then
        s.(status := s.status[s.launched := Running], launched := s.launched + 1, pending := s.pending + 1)
      else s.(pc := Collecting)
    case Leave => s.(pc := Draining)
    case Drain => Taken(s)
    case Drained => s.(pc := if s.extrasLaunched then Answering else Releasing(1))
    case ReleaseNext =>
      if s.pc.next < |s.status| then
        s.(released := Bumped(s.released, s.pc.next), pc := Releasing(s.pc.next + 1))
      else s.(pc := Answering)
    case Answer => s.(replies := s.replies + [ReplyOf(s)], pc := Done)
  }

  // ----- What every interleaving keeps -------------------------------------------------------

  /** The reservations the request's own goroutine has given back: extras it never launched. */
  function GivenBack(s: State): nat {
    if s.extrasLaunched then 1
    else match s.pc
      case Releasing(next) => next
      case Answering => |s.status|
      case Done => |s.status|
      case _ => 1
  }

  predicate RightStatus(s: State, i: nat)
    requires i < |s.status| == |s.released|
  {
    && (s.status[i].Waiting? <==> i >= s.launched)
    && s.released[i] == match s.status[i]
                        case Waiting => if 1 <= i < GivenBack(s) then 1 else 0
                        case Running => 0
                        case _ => 1
  }

  /** Every attempt that has sent its result did so once. */
  predicate RightChannel(s: State) {
    && s.taken <= |s.sent|
    && (forall j :: 0 <= j < |s.sent| ==> s.sent[j].who < |s.status| && s.status[s.sent[j].who] == Queued(j))
    && (forall i :: 0 <= i < |s.status| && s.status[i].Queued? ==>
          s.status[i].at < |s.sent| && s.sent[s.status[i].at].who == i)
  }

  /** The winner is the first success among the results received. */
  predicate RightWinner(s: State)
    requires s.taken <= |s.sent|
  {
    match s.winner
    case None => forall j :: 0 <= j < s.taken ==> !s.sent[j].ok
    case Some(w) => w < s.taken && s.sent[w].ok && forall j :: 0 <= j < w ==> !s.sent[j].ok
  }

  predicate RightPlace(s: State) {
    match s.pc
    case Collecting => if s.extrasLaunched then s.launched == |s.status| else s.launched == 1 && s.taken == 0
    case Launching => s.extrasLaunched
    case Draining => Over(s)
    case Releasing(next) => Over(s) && !s.extrasLaunched && 1 <= next <= |s.status|
    case Answering => Over(s)
    case Done => Over(s)
  }

  /** All results are in: of everything, or of the primary's attempt if it won alone. */
  predicate Over(s: State) {
    s.pending == 0 && if s.extrasLaunched then s.launched == |s.status| else s.launched == 1 && s.winner.Some?
  }

  predicate Inv(s: State) {
    && |s.status| == |s.released| >= 2
    && 1 <= s.launched <= |s.status|
    && 0 <= s.pending == s.launched - s.taken
    && RightChannel(s) && RightWinner(s) && RightPlace(s)
    && (forall i :: 0 <= i < |s.status| ==> RightStatus(s, i))
    && s.replies == if s.pc == Done then [ReplyOf(s)] else []
  }

  lemma InitialInv(n: nat)
    requires n >= 2
    ensures Inv(Initial(n))
  {
  }

  lemma FinishKeepsInv(s: State, i: nat, ok: bool)
    requires Inv(s) && Enabled(s, Finish(i, ok))
    ensures Inv(Next(s, Finish(i, ok)))
  {
    var n := Next(s, Finish(i, ok));
    assert RightStatus(s, i);
    forall k | 0 <= k < |n.status| ensures RightStatus(n, k) { assert RightStatus(s, k); }
  }

  lemma SendKeepsInv(s: State, i: nat)
    requires Inv(s) && Enabled(s, Send(i))
    ensures Inv(Next(s, Send(i)))
  {
    var n := Next(s, Send(i));
    assert RightStatus(s, i);
    forall k | 0 <= k < |n.status| ensures RightStatus(n, k) { assert RightStatus(s, k); }
  }

  lemma LaunchKeepsInv(s: State)
    requires Inv(s) && Enabled(s, Launch)
    ensures Inv(Next(s, Launch))
  {
    var n := Next(s, Launch);
    assert s.launched < |s.status| ==> RightStatus(s, s.launched);
    forall k | 0 <= k < |n.status| ensures RightStatus(n, k) { assert RightStatus(s, k); }
  }

  lemma ReleaseKeepsInv(s: State)
    requires Inv(s) && Enabled(s, ReleaseNext)
    ensures Inv(Next(s, ReleaseNext))
  {
    var n := Next(s, ReleaseNext);
    assert s.pc.next < |s.status| ==> RightStatus(s, s.pc.next);
    forall k | 0 <= k < |n.status| ensures RightStatus(n, k) { assert RightStatus(s, k); }
  }

  lemma ReceiveKeepsInv(s: State)
    requires Inv(s) && Enabled(s, Receive)
    ensures Inv(Next(s, Receive))
  {
    var n := Next(s, Receive);
    forall k | 0 <= k < |n.status| ensures RightStatus(n, k) { assert RightStatus(s, k); }
  }

  lemma MoveKeepsInv(s: State, l: Step)
    requires Inv(s) && Enabled(s, l) && (l.Fire? || l.TakeTimer? || l.Leave? || l.Drained? || l.Answer?)
    ensures Inv(Next(s, l))
  {
    var n := Next(s, l);
    assert n.status == s.status && n.sent == s.sent && n.taken == s.taken && n.winner == s.winner;
    forall k | 0 <= k < |n.status| ensures RightStatus(n, k) { assert RightStatus(s, k); }
  }

  lemma StepKeepsInv(s: State, l: Step)
    requires Inv(s) && Enabled(s, l)
    ensures Inv(Next(s, l))
  {
    match l {
      case Finish(i, ok) => FinishKeepsInv(s, i, ok);
      case Send(i) => SendKeepsInv(s, i);
      case Receive => ReceiveKeepsInv(s);
      case Drain => assert false;
      case Launch => LaunchKeepsInv(s);
      case ReleaseNext => ReleaseKeepsInv(s);
      case _ => MoveKeepsInv(s, l);
    }
  }

  /** When the collecting loop is left nothing is pending, so the drain loop never runs. */
  lemma NothingToDrain(s: State)
    requires Inv(s)
    ensures !Enabled(s, Drain)
  {
  }

  // ----- Nothing is lost in the channel ------------------------------------------------------

  lemma {:induction false} Missing(ns: seq<nat>, k: nat) returns (i: nat)
    requires |ns| < k
    ensures i < k && i !in ns
    decreases k
  {
    i := k - 1;
    if i in ns {
      var p :| 0 <= p < |ns| && ns[p] == k - 1;
      var rest := ns[..p] + ns[p + 1..];
      i := Missing(rest, k - 1);
      assert forall j :: 0 <= j < |ns| && j != p ==> ns[j] == rest[if j < p then j else j - 1];
    }
  }

  function Whos(s: State): seq<nat> { seq(|s.sent|, j requires 0 <= j < |s.sent| => s.sent[j].who) }

  lemma QueuedIsSent(s: State)
    requires Inv(s)
    ensures forall i :: 0 <= i < |s.status| && s.status[i].Queued? ==> i in Whos(s)
  {
    forall i | 0 <= i < |s.status| && s.status[i].Queued? ensures i in Whos(s) {
      assert Whos(s)[s.status[i].at] == i;
    }
  }

  lemma SomeUnsent(s: State)
    requires Inv(s) && |s.sent| < s.launched
    ensures exists i :: 0 <= i < s.launched && (s.status[i].Running? || s.status[i].Sending?)
  {
    QueuedIsSent(s);
    var i := Missing(Whos(s), s.launched);
    assert RightStatus(s, i);
  }

  /** Where attempt i's result stands in the channel; past its end if it was not sent. */
  function Position(s: State, i: nat): nat
    requires i < |s.status|
  {
    if s.status[i].Queued? then s.status[i].at else |s.sent|
  }

  function Positions(s: State): seq<nat> {
    seq(|s.status|, i requires 0 <= i < |s.status| => Position(s, i))
  }

  lemma SentIsQueued(s: State)
    requires Inv(s)
    ensures forall j :: 0 <= j < |s.sent| ==> j in Positions(s)
  {
    forall j | 0 <= j < |s.sent| ensures j in Positions(s) { assert Positions(s)[s.sent[j].who] == j; }
  }

  /** The channel's buffer holds a result of every attempt, so that sending never blocks. */
  lemma SendNeverBlocks(s: State)
    requires Inv(s)
    ensures |s.sent| <= |s.status|
    ensures |s.sent| == |s.status| ==> forall i :: 0 <= i < |s.status| ==> s.status[i].Queued?
  {
    SentIsQueued(s);
    if |s.sent| > |s.status| {
      var k := Missing(Positions(s), |s.sent|);
    } else if |s.sent| == |s.status| {
      var k := Missing(Positions(s), |s.sent| + 1);
      forall i | 0 <= i < |s.status| ensures s.status[i].Queued? { assert Positions(s)[i] == Position(s, i); }
    }
  }

  // ----- How every race ends -----------------------------------------------------------------

  /**
    When the race is over every attempt, launched or not, has been released exactly once, none is
    still running, and there was one reply: the first successful result in the order received, or
    a 502, and that only if every backend was tried and failed.
  */
  ghost predicate WellEnded(s: State) {
    && (forall i :: 0 <= i < |s.released| ==> s.released[i] == 1)
    && (forall i :: 0 <= i < |s.status| ==> s.status[i].Waiting? || s.status[i].Queued?)
    && |s.replies| == 1
    && (s.replies[0].From? ==> exists w :: IsFirstSuccess(s.sent, w, s.replies[0].who))
    && (s.replies[0] == Status502 <==>
        && (forall i :: 0 <= i < |s.status| ==> s.status[i].Queued?)
        && (forall j :: 0 <= j < |s.sent| ==> !s.sent[j].ok))
  }

  ghost predicate IsFirstSuccess(sent: seq<Result>, w: nat, who: nat) {
    w < |sent| && sent[w] == Result(who, true) && forall j :: 0 <= j < w ==> !sent[j].ok
  }

  lemma RaceOutcome(s: State)
    requires Inv(s) && s.pc == Done
    ensures WellEnded(s)
  {
    assert s.winner.Some? ==> IsFirstSuccess(s.sent, s.winner.value, s.sent[s.winner.value].who);
    SendNeverBlocks(s);
    assert !s.extrasLaunched ==> RightStatus(s, s.sent[0].who);
    forall i | 0 <= i < |s.status|
      ensures s.released[i] == 1 && (s.status[i].Waiting? || s.status[i].Queued?)
    {
      assert RightStatus(s, i);
    }
  }

  function Rank(st: Status): nat {
    match st
    case Waiting => 3
    case Running => 2
    case Sending(_) => 1
    case Queued(_) => 0
  }

  function Work(status: seq<Status>, n: nat): nat
    requires n <= |status|
  {
    if n == 0 then 0 else Work(status, n - 1) + Rank(status[n - 1])
  }

  lemma {:induction false} WorkUpdate(status: seq<Status>, i: nat, st: Status, n: nat)
    requires i < |status| && n <= |status|
    ensures Work(status[i := st], n) == Work(status, n) + if i < n then Rank(st) - Rank(status[i]) else 0
  {
    if n > 0 { WorkUpdate(status, i, st, n - 1); }
  }

  lemma {:induction false} InitialWork(n: nat, k: nat)
    requires 2 <= n && 1 <= k <= n
    ensures Work(Initial(n).status, k) == 3 * k - 1
  {
    if k > 1 { InitialWork(n, k - 1); }
  }

  function Distance(s: State): int {
    match s.pc
    case Collecting => if s.extrasLaunched then |s.status| + 3 else |s.status| + 5
    case Launching => |s.status| + 4
    case Draining => |s.status| + 2
    case Releasing(next) => |s.status| + 2 - next
    case Answering => 1
    case Done => 0
  }

  function Left(s: State): int {
    Work(s.status, |s.status|) + Distance(s) + |s.status| - s.taken
      + match s.timer case Armed => 2 case Fired => 1 case Spent => 0
  }

  lemma LeftIsNatural(s: State)
    requires Inv(s)
    ensures 0 <= Left(s)
  {
  }

  lemma AttemptCounts(s: State, l: Step)
    requires Inv(s) && Enabled(s, l) && (l.Finish? || l.Send?)
    ensures Left(Next(s, l)) < Left(s)
  {
    match l {
      case Finish(i, ok) => WorkUpdate(s.status, i, Sending(ok), |s.status|);
      case Send(i) => WorkUpdate(s.status, i, Queued(|s.sent|), |s.status|);
    }
  }

  lemma LaunchCounts(s: State)
    requires Inv(s) && Enabled(s, Launch)
    ensures Left(Next(s, Launch)) < Left(s)
  {
    if s.launched < |s.status| {
      assert RightStatus(s, s.launched);
      WorkUpdate(s.status, s.launched, Running, |s.status|);
    }
  }

  lemma EveryStepCounts(s: State, l: Step)
    requires Inv(s) && Enabled(s, l)
    ensures Left(Next(s, l)) < Left(s)
  {
    if l.Finish? || l.Send? {
      AttemptCounts(s, l);
    } else if l.Launch? {
      LaunchCounts(s);
    } else {
      assert Next(s, l).status == s.status;
    }
  }

  /** Short of the end, an attempt can finish, a result can be sent or the request can go on. */
  lemma NeverStuck(s: State)
    requires Inv(s) && s.pc != Done
    ensures exists l :: Enabled(s, l)
  {
    match s.pc {
      case Collecting =>
        if s.pending == 0 {
          assert Enabled(s, Leave);
        } else if s.taken < |s.sent| {
          assert Enabled(s, Receive);
        } else {
          SomeUnsent(s);
          var i :| 0 <= i < s.launched && (s.status[i].Running? || s.status[i].Sending?);
          assert Enabled(s, Send(i)) || Enabled(s, Finish(i, true));
        }
      case Launching => assert Enabled(s, Launch);
      case Draining => assert Enabled(s, Drained);
      case Releasing(_) => assert Enabled(s, ReleaseNext);
      case Answering => assert Enabled(s, Answer);
    }
  }

  ghost predicate Leads(s: State, l: Step, next: State) {
    Enabled(s, l) && |s.released| == |s.status| && next == Next(s, l)
  }

  ghost predicate Took(rs: seq<State>, ls: seq<Step>, k: nat)
    requires k < |ls| < |rs|
  {
    Leads(rs[k], ls[k], rs[k + 1])
  }

  /** Any interleaving of a race between n attempts, from its start. */
  ghost predicate IsRun(n: nat, rs: seq<State>, ls: seq<Step>)
    requires n >= 2
  {
    && |rs| == |ls| + 1 && rs[0] == Initial(n)
    && forall k :: 0 <= k < |ls| ==> Took(rs, ls, k)
  }

  lemma InitialLeft(n: nat)
    requires n >= 2
    ensures Left(Initial(n)) == 5 * n + 6
  {
    InitialWork(n, n);
  }

  lemma LeadsKeepsInv(s: State, l: Step, next: State)
    requires Inv(s) && Leads(s, l, next)
    ensures Inv(next) && 0 <= Left(next) < Left(s)
  {
    StepKeepsInv(s, l);
    LeftIsNatural(next);
    EveryStepCounts(s, l);
  }

  lemma {:induction false} RunKeepsInv(n: nat, rs: seq<State>, ls: seq<Step>, k: nat)
    requires n >= 2 && IsRun(n, rs, ls) && k <= |ls|
    ensures Inv(rs[k]) && 0 <= Left(rs[k]) <= Left(Initial(n)) - k
  {
    if k == 0 {
      InitialInv(n);
      InitialLeft(n);
    } else {
      RunKeepsInv(n, rs, ls, k - 1);
      assert Took(rs, ls, k - 1);
      LeadsKeepsInv(rs[k - 1], ls[k - 1], rs[k]);
    }
  }

  /** No interleaving goes on for ever, and one that cannot go on has answered the client and ended well. */
  lemma EveryRaceEnds(n: nat, rs: seq<State>, ls: seq<Step>)
    requires n >= 2 && IsRun(n, rs, ls)
    ensures |ls| <= 5 * n + 6
    ensures (forall l :: !Enabled(rs[|ls|], l)) ==> rs[|ls|].pc == Done
    ensures rs[|ls|].pc == Done ==> WellEnded(rs[|ls|])
  {
    RunKeepsInv(n, rs, ls, |ls|);
    InitialLeft(n);
    if rs[|ls|].pc == Done { RaceOutcome(rs[|ls|]); } else { NeverStuck(rs[|ls|]); }
  }

  // ----- When the extras are launched --------------------------------------------------------

  ghost predicate TimerTaken(ls: seq<Step>, k: nat)
    requires k <= |ls|
  {
    exists i :: 0 <= i < k && ls[i] == TakeTimer
  }

  ghost predicate FirstFailed(s: State) { 0 < s.taken <= |s.sent| && !s.sent[0].ok }

  lemma LaunchStep(s: State, l: Step, next: State)
    requires Inv(s) && Leads(s, l, next)
    ensures next.extrasLaunched <==> s.extrasLaunched || l == TakeTimer || FirstFailed(next)
    ensures FirstFailed(s) ==> FirstFailed(next)
  {
  }

  /** The extras are launched once the timer was taken or the first result received is a failure. */
  lemma {:induction false} LaunchedIff(n: nat, rs: seq<State>, ls: seq<Step>, k: nat)
    requires n >= 2 && IsRun(n, rs, ls) && k <= |ls|
    ensures |rs[k].status| == n
    ensures rs[k].extrasLaunched <==> TimerTaken(ls, k) || FirstFailed(rs[k])
  {
    if k > 0 {
      LaunchedIff(n, rs, ls, k - 1);
      RunKeepsInv(n, rs, ls, k - 1);
      assert Took(rs, ls, k - 1);
      LaunchStep(rs[k - 1], ls[k - 1], rs[k]);
      assert TimerTaken(ls, k) <==> TimerTaken(ls, k - 1) || ls[k - 1] == TakeTimer;
    }
  }

  /**
    In every race that is over: an extra stayed unlaunched exactly if the timer was never taken and
    the first result received is the primary's, a success; otherwise every attempt was made.
  */
  lemma UnlaunchedIff(n: nat, rs: seq<State>, ls: seq<Step>)
    requires n >= 2 && IsRun(n, rs, ls) && rs[|ls|].pc == Done
    ensures var s := rs[|ls|];
            && ((exists i :: 0 <= i < |s.status| && s.status[i].Waiting?) <==>
                !TimerTaken(ls, |ls|) && s.sent != [] && s.sent[0] == Result(0, true))
            && (TimerTaken(ls, |ls|) ==> forall i :: 0 <= i < |s.status| ==> s.status[i].Queued?)
  {
    var s := rs[|ls|];
    RunKeepsInv(n, rs, ls, |ls|);
    LaunchedIff(n, rs, ls, |ls|);
    RaceOutcome(s);
    assert RightStatus(s, 0) && RightStatus(s, 1);
    forall i | 0 <= i < n && s.extrasLaunched ensures s.status[i].Queued? { assert RightStatus(s, i); }
    if !s.extrasLaunched {
      assert s.status[1].Waiting? && s.taken == 1;
      assert RightStatus(s, s.sent[0].who);
    }
  }
}
