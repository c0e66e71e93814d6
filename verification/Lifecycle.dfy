/**
 The connection lifecycle of `src/server.rs`: two acceptor loops and their connection
 tasks as interleaved steps over one semaphore, one limiter and two counters.
 */
module Lifecycle {
  import opened Wrappers
  import opened Addresses
  import opened RateLimit
  import opened RateWindow
  import opened Networks
  import opened Policy

  datatype Listener = Socks5Listener | HttpListener

  // Where an acceptor loop stands with the connection it has accepted.
  datatype Phase =
    | Idle
    | Accepted(ip: Ip)                 // to be screened against allowed_networks
    | Screened(ip: Ip)                 // about to call the limiter
    | Sampled(ip: Ip, now: int)        // has read the clock, waits for the limiter's lock
    | Waiting(ip: Ip)                  // admitted, waits for a permit
    | Holding(ip: Ip)                  // has a permit
    | CountedTotal(ip: Ip)             // has added to total_connections
    | CountedActive(ip: Ip)            // has added to active_connections, about to spawn

  datatype TaskPhase = Running | Leaving | Finished

  datatype Task = Task(listener: Listener, ip: Ip, phase: TaskPhase)

  // A screening of a client against `allowed_networks`, and its verdict.
  datatype Screening = Screening(ip: Ip, allowed: bool)

  datatype Server = Server(
    limiter: Option<Settings>, maxConnections: nat, parse: AddressParser,
    free: nat, total: nat, active: int,
    start: int, clock: int,
    screens: seq<Screening>,           // the screenings so far
    checks: seq<Check>,                // the limiter's calls, in the order they took its lock
    socks5: Phase, http: Phase,
    socks5Lag: nat, httpLag: nat,      // time spent between reading the clock and the lock
    tasks: seq<Task>)
  {
    function At(l: Listener): Phase {
      match l case Socks5Listener => socks5 case HttpListener => http
    }

    function To(l: Listener, p: Phase): Server {
      match l case Socks5Listener => this.(socks5 := p) case HttpListener => this.(http := p)
    }

    function Lagged(l: Listener, ns: nat): Server {
      match l
      case Socks5Listener => this.(socks5Lag := socks5Lag + ns)
      case HttpListener => this.(httpLag := httpLag + ns)
    }
  }

  datatype Step =
    | Tick(ns: nat)
    | Accept(l: Listener, ip: Ip)
    | Screen(l: Listener, sec: Security) // under the rules in force at that moment
    | ReadClock(l: Listener)
    | CallLimiter(l: Listener)
    | AcquirePermit(l: Listener)
    | AddTotal(l: Listener)
    | AddActive(l: Listener)
    | Spawn(l: Listener)
    | HandlerEnds(task: nat)           // completed, failed or timed out
    | TaskEnds(task: nat)              // the permit is dropped

  function Start(limiter: Option<Settings>, maxConnections: nat, parse: AddressParser, now: int): Server {
    Server(limiter, maxConnections, parse, maxConnections, 0, 0, now, now, [], [], Idle, Idle, 0, 0, [])
  }

  predicate Enabled(s: Server, step: Step) {
    match step
    case Tick(_) => true
    case Accept(l, _) => s.At(l).Idle?
    case Screen(l, _) => s.At(l).Accepted?
    case ReadClock(l) => s.At(l).Screened?
    case CallLimiter(l) => s.At(l).Sampled? && s.limiter.Some?
    case AcquirePermit(l) => s.At(l).Waiting? && s.free > 0
    case AddTotal(l) => s.At(l).Holding?
    case AddActive(l) => s.At(l).CountedTotal?
    case Spawn(l) => s.At(l).CountedActive?
    case HandlerEnds(i) => i < |s.tasks| && s.tasks[i].phase == Running
    case TaskEnds(i) => i < |s.tasks| && s.tasks[i].phase == Leaving
  }

  function Apply(s: Server, step: Step): Server
    requires Enabled(s, step)
  {
    match step
    case Tick(ns) => s.(clock := s.clock + ns)
    case Accept(l, ip) => s.To(l, Accepted(ip))
    case Screen(l, sec) =>
      var ip := s.At(l).ip;
      var allowed := CheckClientAllowed(s.parse, sec, ip);
      s.(screens := s.screens + [Screening(ip, allowed)]).To(l,
        if !allowed then Idle else if s.limiter.Some? then Screened(ip) else Waiting(ip))
    case ReadClock(l) => s.To(l, Sampled(s.At(l).ip, s.clock))
    case CallLimiter(l) =>
      var e := Check(s.At(l).now, s.At(l).ip);
      var admitted := Allows(s.limiter.value, State(s.limiter.value, s.checks), e);
      s.(checks := s.checks + [e]).Lagged(l, Elapsed(s.clock, e.now)).To(l, if admitted then Waiting(e.ip) else Idle)
    case AcquirePermit(l) => s.(free := s.free - 1).To(l, Holding(s.At(l).ip))
    case AddTotal(l) => s.(total := s.total + 1).To(l, CountedTotal(s.At(l).ip))
    case AddActive(l) => s.(active := s.active + 1).To(l, CountedActive(s.At(l).ip))
    case Spawn(l) => s.(tasks := s.tasks + [Task(l, s.At(l).ip, Running)]).To(l, Idle)
    case HandlerEnds(i) => s.(active := s.active - 1, tasks := s.tasks[i := s.tasks[i].(phase := Leaving)])
    case TaskEnds(i) => s.(free := s.free + 1, tasks := s.tasks[i := s.tasks[i].(phase := Finished)])
  }

  // The state after the steps, or nothing when one of them was not enabled.
  function Play(s: Server, steps: seq<Step>): Option<Server> {
    if steps == [] then Some(s)
    else
      match Play(s, steps[..|steps|-1])
      case None => None
      case Some(before) =>
        if Enabled(before, steps[|steps|-1]) then Some(Apply(before, steps[|steps|-1])) else None
  }

  /// What is counted

  function Tally(tasks: seq<Task>, p: TaskPhase): nat {
    if tasks == [] then 0
    else Tally(tasks[..|tasks|-1], p) + (if tasks[|tasks|-1].phase == p then 1 else 0)
  }

  function TallyIp(tasks: seq<Task>, ip: Ip): nat {
    if tasks == [] then 0
    else TallyIp(tasks[..|tasks|-1], ip) + (if tasks[|tasks|-1].ip == ip then 1 else 0)
  }

  function One(b: bool): nat { if b then 1 else 0 }

  predicate HasPermit(p: Phase) { p.Holding? || p.CountedTotal? || p.CountedActive? }

  // The permits out: those of the acceptors and those of the tasks.
  function Held(s: Server): nat {
    One(HasPermit(s.socks5)) + One(HasPermit(s.http)) + Tally(s.tasks, Running) + Tally(s.tasks, Leaving)
  }

  // Connections whose handler has ended.
  function Ended(s: Server): nat {
    Tally(s.tasks, Leaving) + Tally(s.tasks, Finished)
  }

  // An acceptor has added one of the two counters and not yet the other.
  function MidCount(s: Server): nat {
    One(s.socks5.CountedTotal?) + One(s.http.CountedTotal?)
  }

  predicate Admitted(p: Phase, ip: Ip) {
    (p.Waiting? || HasPermit(p)) && p.ip == ip
  }

  // Connections of `ip` past the limiter, on both listeners together.
  function PastLimiter(s: Server, ip: Ip): nat {
    One(Admitted(s.socks5, ip)) + One(Admitted(s.http, ip)) + TallyIp(s.tasks, ip)
  }

  predicate Counts(s: Server) {
    && s.free + Held(s) == s.maxConnections
    && s.active == Tally(s.tasks, Running) + One(s.socks5.CountedActive?) + One(s.http.CountedActive?)
    && s.total == s.active + Ended(s) + MidCount(s)
  }

  lemma {:induction false} TallySet(tasks: seq<Task>, i: nat, p: TaskPhase, q: TaskPhase)
    requires i < |tasks|
    ensures Tally(tasks[i := tasks[i].(phase := p)], q) ==
            Tally(tasks, q) - One(tasks[i].phase == q) + One(p == q)
    ensures tasks[i].phase == q ==> Tally(tasks, q) >= 1
  {
    var later := tasks[i := tasks[i].(phase := p)];
    if i < |tasks| - 1 {
      TallySet(tasks[..|tasks|-1], i, p, q);
      assert later[..|tasks|-1] == tasks[..|tasks|-1][i := tasks[i].(phase := p)];
    } else {
      assert later[..|tasks|-1] == tasks[..|tasks|-1];
    }
  }

  lemma {:induction false} TallyIpSet(tasks: seq<Task>, i: nat, p: TaskPhase, ip: Ip)
    requires i < |tasks|
    ensures TallyIp(tasks[i := tasks[i].(phase := p)], ip) == TallyIp(tasks, ip)
  {
    var later := tasks[i := tasks[i].(phase := p)];
    if i < |tasks| - 1 {
      TallyIpSet(tasks[..|tasks|-1], i, p, ip);
      assert later[..|tasks|-1] == tasks[..|tasks|-1][i := tasks[i].(phase := p)];
    } else {
      assert later[..|tasks|-1] == tasks[..|tasks|-1];
    }
  }

  lemma TallyAdd(tasks: seq<Task>, t: Task, p: TaskPhase, ip: Ip)
    ensures Tally(tasks + [t], p) == Tally(tasks, p) + One(t.phase == p)
    ensures TallyIp(tasks + [t], ip) == TallyIp(tasks, ip) + One(t.ip == ip)
  {
    assert (tasks + [t])[..|tasks|] == tasks;
  }

  lemma TaskCountsStep(s: Server, step: Step)
    requires Counts(s) && Enabled(s, step) && (step.HandlerEnds? || step.TaskEnds?)
    ensures Counts(Apply(s, step))
  {
    hide Tally, TallyIp, State, Allows, CheckClientAllowed;
    var i, p := step.task, if step.HandlerEnds? then Leaving else Finished;
    TallySet(s.tasks, i, p, Running);
    TallySet(s.tasks, i, p, Leaving);
    TallySet(s.tasks, i, p, Finished);
  }

  lemma SpawnCountsStep(s: Server, l: Listener)
    requires Counts(s) && Enabled(s, Spawn(l))
    ensures Counts(Apply(s, Spawn(l)))
  {
    hide Tally, TallyIp, State, Allows, CheckClientAllowed;
    var t := Task(l, s.At(l).ip, Running);
    TallyAdd(s.tasks, t, Running, t.ip);
    TallyAdd(s.tasks, t, Leaving, t.ip);
    TallyAdd(s.tasks, t, Finished, t.ip);
  }

  lemma CountsStep(s: Server, step: Step)
    requires Counts(s) && Enabled(s, step)
    ensures Counts(Apply(s, step))
  {
    hide Tally, State, Allows, CheckClientAllowed;
    if step.HandlerEnds? || step.TaskEnds? {
      TaskCountsStep(s, step);
    } else if step.Spawn? {
      SpawnCountsStep(s, step.l);
    }
  }

  // Each connection past the limiter used exactly one of its admissions.
  ghost predicate TokensMatch(s: Server) {
    s.limiter.Some? ==> forall ip :: PastLimiter(s, ip) == Count(s.limiter.value, [], s.checks, ip)
  }

  lemma TokensStep(s: Server, step: Step)
    requires TokensMatch(s) && Enabled(s, step)
    ensures TokensMatch(Apply(s, step))
  {
    hide Tally, TallyIp, State, Allows, Count, CheckClientAllowed;
    var next := Apply(s, step);
    if s.limiter.Some? {
      forall ip ensures PastLimiter(next, ip) == Count(s.limiter.value, [], next.checks, ip) {
        match step
        case CallLimiter(l) =>
          CountAdd(s.limiter.value, s.checks, Check(s.At(l).now, s.At(l).ip), ip);
        case Spawn(l) =>
          TallyAdd(s.tasks, Task(l, s.At(l).ip, Running), Running, ip);
        case HandlerEnds(i) => TallyIpSet(s.tasks, i, Leaving, ip);
        case TaskEnds(i) => TallyIpSet(s.tasks, i, Finished, ip);
        case _ =>
      }
    }
  }

  lemma CountOn(c: Settings, pre: seq<Check>, win: seq<Check>, e: Check, ip: Ip)
    ensures Count(c, pre, [], ip) == 0
    ensures Count(c, pre, win + [e], ip) ==
            Count(c, pre, win, ip) + One(e.ip == ip && Allows(c, State(c, pre + win), e))
  {
    hide Allows, State;
    assert (win + [e])[..|win|] == win;
  }

  lemma CountAdd(c: Settings, checks: seq<Check>, e: Check, ip: Ip)
    ensures Count(c, [], checks + [e], ip) ==
            Count(c, [], checks, ip) + One(e.ip == ip && Allows(c, State(c, checks), e))
  {
    CountOn(c, [], checks, e, ip);
    assert [] + checks == checks;
  }

  /// How far the limiter's clock readings can step back

  function OpenLag(s: Server, l: Listener): int {
    if s.At(l).Sampled? then s.clock - s.At(l).now else 0
  }

  // Readings lie between the start and the clock; the times an acceptor spends between
  // reading and locking do not overlap; and readings step back only across such times.
  predicate ClockOk(s: Server) {
    && s.start <= s.clock
    && (s.socks5.Sampled? ==> s.start <= s.socks5.now <= s.clock)
    && (s.http.Sampled? ==> s.start <= s.http.now <= s.clock)
    && s.socks5Lag + OpenLag(s, Socks5Listener) <= s.clock - s.start
    && s.httpLag + OpenLag(s, HttpListener) <= s.clock - s.start
    && (forall k :: 0 <= k < |s.checks| ==> s.start <= s.checks[k].now <= s.clock)
    && Backward(s.checks) <= s.socks5Lag + s.httpLag
  }

  lemma BackwardAdd(checks: seq<Check>, e: Check)
    ensures Backward(checks + [e]) ==
            Backward(checks) + (if checks == [] then 0 else Elapsed(checks[|checks|-1].now, e.now))
  {
    assert (checks + [e])[..|checks|] == checks;
  }

  lemma ClockStep(s: Server, step: Step)
    requires ClockOk(s) && Enabled(s, step)
    ensures ClockOk(Apply(s, step))
  {
    hide State, Allows, Backward, CheckClientAllowed;
    if step.CallLimiter? {
      BackwardAdd(s.checks, Check(s.At(step.l).now, s.At(step.l).ip));
    }
  }

  /// Every run

  ghost predicate Inv(s: Server) {
    Counts(s) && TokensMatch(s) && ClockOk(s)
  }

  lemma StartInv(limiter: Option<Settings>, maxConnections: nat, parse: AddressParser, now: int)
    ensures Inv(Start(limiter, maxConnections, parse, now))
  {
  }

  lemma SettingsStay(s: Server, step: Step)
    requires Enabled(s, step)
    ensures var next := Apply(s, step);
            next.limiter == s.limiter && next.maxConnections == s.maxConnections && next.start == s.start
  {
    hide State, Allows, CheckClientAllowed;
  }

  lemma {:induction false} PlayInv(limiter: Option<Settings>, maxConnections: nat, parse: AddressParser, now: int,
                                   steps: seq<Step>)
    requires Play(Start(limiter, maxConnections, parse, now), steps).Some?
    ensures var s := Play(Start(limiter, maxConnections, parse, now), steps).value;
            Inv(s) && s.limiter == limiter && s.maxConnections == maxConnections && s.start == now
  {
    hide Counts, TokensMatch, ClockOk, Enabled, Apply;
    if steps == [] {
      StartInv(limiter, maxConnections, parse, now);
    } else {
      var before := Play(Start(limiter, maxConnections, parse, now), steps[..|steps|-1]).value;
      PlayInv(limiter, maxConnections, parse, now, steps[..|steps|-1]);
      var step := steps[|steps|-1];
      CountsStep(before, step);
      TokensStep(before, step);
      ClockStep(before, step);
      SettingsStay(before, step);
    }
  }

  // Over every interleaving: no permit is lost or made, the active counter stays within
  // the permits held and so within `max_connections`, it never goes below zero, and
  // between the two counter updates of no acceptor the total is the active plus the
  // ended connections.
  lemma PermitsAndCounters(limiter: Option<Settings>, maxConnections: nat, parse: AddressParser, now: int,
                           steps: seq<Step>)
    requires Play(Start(limiter, maxConnections, parse, now), steps).Some?
    ensures var s := Play(Start(limiter, maxConnections, parse, now), steps).value;
            && s.free + Held(s) == maxConnections
            && 0 <= s.active <= Held(s) <= maxConnections
            && (MidCount(s) == 0 ==> s.total == s.active + Ended(s))
  {
    PlayInv(limiter, maxConnections, parse, now, steps);
  }

  lemma {:induction false} TotalNeverFalls(s: Server, steps: seq<Step>, more: seq<Step>)
    requires Play(s, steps + more).Some?
    ensures Play(s, steps).Some? && Play(s, steps).value.total <= Play(s, steps + more).value.total
  {
    if more == [] {
      assert steps + more == steps;
    } else {
      assert (steps + more)[..|steps + more| - 1] == steps + more[..|more|-1];
      TotalNeverFalls(s, steps, more[..|more|-1]);
    }
  }

  // With a limiter, every connection past it, on either listener, used exactly one
  // admission of the one limiter, for its own client; and no admission is unused.
  lemma OneTokenEach(c: Settings, maxConnections: nat, parse: AddressParser, now: int, steps: seq<Step>, ip: Ip)
    requires Play(Start(Some(c), maxConnections, parse, now), steps).Some?
    ensures var s := Play(Start(Some(c), maxConnections, parse, now), steps).value;
            PastLimiter(s, ip) == Count(c, [], s.checks, ip)
  {
    hide PastLimiter, Count;
    PlayInv(Some(c), maxConnections, parse, now, steps);
  }

  /// A stretch of a run

  // The oldest clock reading that may still reach the limiter.
  function Oldest(s: Server): int {
    Min(if s.socks5.Sampled? then s.socks5.now else s.clock, if s.http.Sampled? then s.http.now else s.clock)
  }

  // The limiter's calls between `s` and the later `t`.
  function Between(s: Server, t: Server): seq<Check>
    requires |s.checks| <= |t.checks|
  {
    t.checks[|s.checks|..]
  }

  predicate OpenFrom(s: Server, least: int) {
    && (s.socks5.Sampled? ==> least <= s.socks5.now <= s.clock)
    && (s.http.Sampled? ==> least <= s.http.now <= s.clock)
  }

  // Since `s`, readings step back only across times that an acceptor spends between
  // reading and locking, and such steps do not overlap: what they come to lies before
  // every reading still open, and of two open readings one is not before the last call.
  predicate Since(s: Server, t: Server) {
    && |s.checks| <= |t.checks| && t.checks[..|s.checks|] == s.checks
    && var win, base := Between(s, t), Oldest(s);
       && base + Backward(win) <= t.clock && OpenFrom(t, base + Backward(win))
       && (forall k :: 0 <= k < |win| ==> base <= win[k].now <= t.clock)
       && (win != [] && t.socks5.Sampled? && t.http.Sampled? ==>
             win[|win|-1].now <= t.socks5.now || win[|win|-1].now <= t.http.now)
       && s.socks5Lag + s.httpLag + Backward(win) <= t.socks5Lag + t.httpLag
  }

  lemma SinceStart(s: Server)
    requires ClockOk(s)
    ensures Since(s, s)
  {
    assert Between(s, s) == [];
  }

  lemma SinceCall(s: Server, t: Server, l: Listener)
    requires Since(s, t) && Enabled(t, CallLimiter(l))
    ensures Since(s, Apply(t, CallLimiter(l)))
  {
    hide State, Allows, Backward, CheckClientAllowed;
    var e := Check(t.At(l).now, t.At(l).ip);
    var next := Apply(t, CallLimiter(l));
    BackwardAdd(Between(s, t), e);
    assert Between(s, next) == Between(s, t) + [e];
    assert next.checks[..|s.checks|] == t.checks[..|s.checks|];
  }

  lemma SinceStep(s: Server, t: Server, step: Step)
    requires Since(s, t) && Enabled(t, step)
    ensures Since(s, Apply(t, step))
  {
    if step.CallLimiter? {
      SinceCall(s, t, step.l);
    } else {
      hide State, Allows, Backward, CheckClientAllowed;
    }
  }

  lemma {:induction false} PlaySince(c: Settings, maxConnections: nat, parse: AddressParser, now: int,
                                     steps: seq<Step>, more: seq<Step>)
    requires Play(Start(Some(c), maxConnections, parse, now), steps + more).Some?
    ensures var first := Start(Some(c), maxConnections, parse, now);
            Play(first, steps).Some? && Since(Play(first, steps).value, Play(first, steps + more).value)
  {
    hide Since, Enabled, Apply, Counts, TokensMatch;
    var first := Start(Some(c), maxConnections, parse, now);
    if more == [] {
      assert steps + more == steps;
      PlayInv(Some(c), maxConnections, parse, now, steps);
      SinceStart(Play(first, steps).value);
    } else {
      var before, step := more[..|more|-1], more[|more|-1];
      assert (steps + more)[..|steps + more| - 1] == steps + before;
      PlaySince(c, maxConnections, parse, now, steps, before);
      SinceStep(Play(first, steps).value, Play(first, steps + before).value, step);
    }
  }

  lemma {:induction false} CountSplits(c: Settings, pre: seq<Check>, win: seq<Check>, ip: Ip)
    ensures Count(c, [], pre + win, ip) == Count(c, [], pre, ip) + Count(c, pre, win, ip)
  {
    hide Count, Allows, State;
    if win == [] {
      assert pre + win == pre;
      CountOn(c, pre, [], Check(0, ip), ip);
    } else {
      var before, e := win[..|win|-1], win[|win|-1];
      CountSplits(c, pre, before, ip);
      assert pre + win == (pre + before) + [e] && win == before + [e];
      CountAdd(c, pre + before, e, ip);
      CountOn(c, pre, before, e, ip);
    }
  }

  // Connections of one client started on the two listeners together.
  function StartedFor(s: Server, ip: Ip): nat {
    TallyIp(s.tasks, ip)
  }

  // Those of its connections that are past the limiter and not yet started: each
  // acceptor may have one in hand.
  function InHand(s: Server, ip: Ip): nat {
    One(Admitted(s.socks5, ip)) + One(Admitted(s.http, ip))
  }

  // With a limiter, over any stretch of any interleaving of the two listeners, from `s`
  // to `t`: the connections started for a client, beyond the at most two that were in
  // hand, are within the limiter's allowance for the forward movement of its clock
  // readings in the stretch. That is at most the time that passed, since the oldest
  // reading then open, plus the backward movement. And the backward movement is at most
  // that time, and at most what the acceptors spent between reading the clock and
  // taking the lock.
  lemma BothListenersAreLimited(c: Settings, maxConnections: nat, parse: AddressParser, now: int,
                                steps: seq<Step>, more: seq<Step>, ip: Ip)
    requires Play(Start(Some(c), maxConnections, parse, now), steps + more).Some?
    ensures var first := Start(Some(c), maxConnections, parse, now);
            && Play(first, steps).Some?
            && var s, t := Play(first, steps).value, Play(first, steps + more).value;
               && |s.checks| <= |t.checks| && now <= Oldest(s) <= s.clock && InHand(s, ip) <= 2
               && var win, elapsed := Between(s, t), t.clock - Oldest(s);
                  && (StartedFor(t, ip) - StartedFor(s, ip) - InHand(s, ip)) * TOKEN <= Allowance(c, Forward(win))
                  && Forward(win) <= elapsed + Backward(win) && Backward(win) <= elapsed
                  && Backward(win) <= (t.socks5Lag - s.socks5Lag) + (t.httpLag - s.httpLag)
  {
    hide Allowance, Forward, Backward, Count, TallyIp, Counts;
    var first := Start(Some(c), maxConnections, parse, now);
    PlaySince(c, maxConnections, parse, now, steps, more);
    PlayInv(Some(c), maxConnections, parse, now, steps);
    PlayInv(Some(c), maxConnections, parse, now, steps + more);
    var s, t := Play(first, steps).value, Play(first, steps + more).value;
    var win := Between(s, t);
    assert t.checks == s.checks + win;
    CountSplits(c, s.checks, win, ip);
    assert PastLimiter(s, ip) == Count(c, [], s.checks, ip) && PastLimiter(t, ip) == Count(c, [], t.checks, ip);
    StretchBound(c, s.checks, win, ip);
    if win != [] {
      ForwardIsNetPlusBackward(win);
    } else {
      assert Forward([]) == 0 by { ForwardOfNothing(); }
    }
  }

  lemma ForwardOfNothing()
    ensures Forward([]) == 0
  {
  }

  // One figure for any stretch, whatever the interleaving: twice the time that passed.
  lemma OverallBound(c: Settings, maxConnections: nat, parse: AddressParser, now: int,
                     steps: seq<Step>, more: seq<Step>, ip: Ip)
    requires Play(Start(Some(c), maxConnections, parse, now), steps + more).Some?
    ensures var first := Start(Some(c), maxConnections, parse, now);
            && Play(first, steps).Some?
            && var s, t := Play(first, steps).value, Play(first, steps + more).value;
               && t.clock >= Oldest(s)
               && (StartedFor(t, ip) - StartedFor(s, ip) - InHand(s, ip)) * TOKEN
                  <= Allowance(c, 2 * (t.clock - Oldest(s)))
  {
    hide Forward, Backward, StartedFor, InHand, Oldest;
    BothListenersAreLimited(c, maxConnections, parse, now, steps, more, ip);
    var first := Start(Some(c), maxConnections, parse, now);
    var s, t := Play(first, steps).value, Play(first, steps + more).value;
    AllowanceGrows(c, Forward(Between(s, t)), 2 * (t.clock - Oldest(s)));
  }

  // And for a whole run, in which nothing was in hand at the start.
  lemma WholeRunBound(c: Settings, maxConnections: nat, parse: AddressParser, now: int, steps: seq<Step>, ip: Ip)
    requires Play(Start(Some(c), maxConnections, parse, now), steps).Some?
    ensures var s := Play(Start(Some(c), maxConnections, parse, now), steps).value;
            s.clock >= now && StartedFor(s, ip) * TOKEN <= Allowance(c, 2 * (s.clock - now))
  {
    hide Forward, Backward, Oldest, StartedFor, InHand, Allowance;
    assert [] + steps == steps;
    var first := Start(Some(c), maxConnections, parse, now);
    OverallBound(c, maxConnections, parse, now, [], steps, ip);
    assert Play(first, []) == Some(first);
    hide Play;
    NothingAtStart(c, maxConnections, parse, now, ip);
  }

  lemma NothingAtStart(c: Settings, maxConnections: nat, parse: AddressParser, now: int, ip: Ip)
    ensures var first := Start(Some(c), maxConnections, parse, now);
            Oldest(first) == now && StartedFor(first, ip) == 0 && InHand(first, ip) == 0
  {
  }
}
