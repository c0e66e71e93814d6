/**
 What the acceptors do with each connection: who gets past the screening, and the run by
 which an admitted connection is started and ended.
 */
module LifecycleRuns {
  import opened Wrappers
  import opened Addresses
  import opened RateLimit
  import opened Networks
  import opened Policy
  import opened Lifecycle

  /// Nobody gets past the screening unseen

  function PassedFor(screens: seq<Screening>, ip: Ip): nat {
    if screens == [] then 0
    else
      var last := screens[|screens|-1];
      PassedFor(screens[..|screens|-1], ip) + One(last.ip == ip && last.allowed)
  }

  function CheckedFor(checks: seq<Check>, ip: Ip): nat {
    if checks == [] then 0
    else CheckedFor(checks[..|checks|-1], ip) + One(checks[|checks|-1].ip == ip)
  }

  predicate BeforeLimiter(p: Phase, ip: Ip) {
    (p.Screened? || p.Sampled?) && p.ip == ip
  }

  // The connections of `ip` past the screening that have not called the limiter.
  function Pending(s: Server, ip: Ip): nat {
    One(BeforeLimiter(s.socks5, ip)) + One(BeforeLimiter(s.http, ip))
  }

  // Every screening that passed led to one call of the limiter, or is about to; without a
  // limiter, to one connection.
  predicate ScreensMatchFor(s: Server, ip: Ip) {
    PassedFor(s.screens, ip) ==
      Pending(s, ip) + if s.limiter.Some? then CheckedFor(s.checks, ip) else PastLimiter(s, ip)
  }

  ghost predicate ScreensMatch(s: Server) {
    forall ip :: ScreensMatchFor(s, ip)
  }

  ghost predicate NoLimiterNoCall(s: Server) {
    s.limiter.None? ==> !s.socks5.Screened? && !s.socks5.Sampled? && !s.http.Screened? && !s.http.Sampled?
  }

  lemma PassedAdd(screens: seq<Screening>, e: Screening, ip: Ip)
    ensures PassedFor(screens + [e], ip) == PassedFor(screens, ip) + One(e.ip == ip && e.allowed)
  {
    assert (screens + [e])[..|screens|] == screens;
  }

  lemma CheckedAdd(checks: seq<Check>, e: Check, ip: Ip)
    ensures CheckedFor(checks + [e], ip) == CheckedFor(checks, ip) + One(e.ip == ip)
  {
    assert (checks + [e])[..|checks|] == checks;
  }

  lemma ScreenMatches(s: Server, l: Listener, sec: Security, ip: Ip)
    requires ScreensMatchFor(s, ip) && NoLimiterNoCall(s) && Enabled(s, Screen(l, sec))
    ensures ScreensMatchFor(Apply(s, Screen(l, sec)), ip)
  {
    hide TallyIp, CheckClientAllowed, PassedFor, CheckedFor;
    PassedAdd(s.screens, Screening(s.At(l).ip, CheckClientAllowed(s.parse, sec, s.At(l).ip)), ip);
  }

  lemma CallMatches(s: Server, l: Listener, ip: Ip)
    requires ScreensMatchFor(s, ip) && Enabled(s, CallLimiter(l))
    ensures ScreensMatchFor(Apply(s, CallLimiter(l)), ip)
  {
    hide TallyIp, State, Allows, PassedFor, CheckedFor;
    CheckedAdd(s.checks, Check(s.At(l).now, s.At(l).ip), ip);
  }

  lemma TaskMatches(s: Server, step: Step, ip: Ip)
    requires ScreensMatchFor(s, ip) && Enabled(s, step) && (step.Spawn? || step.HandlerEnds? || step.TaskEnds?)
    ensures ScreensMatchFor(Apply(s, step), ip)
  {
    hide TallyIp, PassedFor, CheckedFor, State, Allows, CheckClientAllowed;
    match step
    case Spawn(l) => TallyAdd(s.tasks, Task(l, s.At(l).ip, Running), Running, ip);
    case HandlerEnds(i) => TallyIpSet(s.tasks, i, Leaving, ip);
    case TaskEnds(i) => TallyIpSet(s.tasks, i, Finished, ip);
  }

  lemma ClockMatches(s: Server, step: Step, ip: Ip)
    requires ScreensMatchFor(s, ip) && Enabled(s, step) && (step.Tick? || step.Accept? || step.ReadClock?)
    ensures ScreensMatchFor(Apply(s, step), ip)
  {
    hide TallyIp, PassedFor, CheckedFor, State, Allows, CheckClientAllowed;
  }

  lemma CountMatches(s: Server, step: Step, ip: Ip)
    requires ScreensMatchFor(s, ip) && Enabled(s, step) && (step.AcquirePermit? || step.AddTotal? || step.AddActive?)
    ensures ScreensMatchFor(Apply(s, step), ip)
  {
    hide TallyIp, PassedFor, CheckedFor, State, Allows, CheckClientAllowed;
  }

  lemma ScreensStepFor(s: Server, step: Step, ip: Ip)
    requires ScreensMatchFor(s, ip) && NoLimiterNoCall(s) && Enabled(s, step)
    ensures ScreensMatchFor(Apply(s, step), ip)
  {
    hide ScreensMatchFor, NoLimiterNoCall, Enabled, Apply;
    match step
    case Screen(l, sec) => ScreenMatches(s, l, sec, ip);
    case CallLimiter(l) => CallMatches(s, l, ip);
    case Spawn(_) => TaskMatches(s, step, ip);
    case HandlerEnds(_) => TaskMatches(s, step, ip);
    case TaskEnds(_) => TaskMatches(s, step, ip);
    case Tick(_) => ClockMatches(s, step, ip);
    case Accept(_, _) => ClockMatches(s, step, ip);
    case ReadClock(_) => ClockMatches(s, step, ip);
    case _ => CountMatches(s, step, ip);
  }

  lemma CallsStep(s: Server, step: Step)
    requires NoLimiterNoCall(s) && Enabled(s, step)
    ensures NoLimiterNoCall(Apply(s, step))
  {
    hide State, Allows, CheckClientAllowed;
  }

  lemma ScreensStep(s: Server, step: Step)
    requires ScreensMatch(s) && NoLimiterNoCall(s) && Enabled(s, step)
    ensures ScreensMatch(Apply(s, step)) && NoLimiterNoCall(Apply(s, step))
  {
    hide Enabled, Apply, NoLimiterNoCall, ScreensMatchFor;
    CallsStep(s, step);
    forall ip ensures ScreensMatchFor(Apply(s, step), ip) {
      ScreensStepFor(s, step, ip);
    }
  }

  lemma NobodyAtStart(limiter: Option<Settings>, maxConnections: nat, parse: AddressParser, now: int)
    ensures ScreensMatch(Start(limiter, maxConnections, parse, now))
    ensures NoLimiterNoCall(Start(limiter, maxConnections, parse, now))
  {
  }

  // In every run: the limiter's calls for a client, with those about to be made, are
  // exactly its screenings that passed; without a limiter its connections are.
  lemma {:induction false} ScreenedExactly(limiter: Option<Settings>, maxConnections: nat, parse: AddressParser,
                                           now: int, steps: seq<Step>)
    requires Play(Start(limiter, maxConnections, parse, now), steps).Some?
    ensures var s := Play(Start(limiter, maxConnections, parse, now), steps).value;
            ScreensMatch(s) && NoLimiterNoCall(s)
  {
    hide ScreensMatch, NoLimiterNoCall, Enabled, Apply;
    if steps == [] {
      NobodyAtStart(limiter, maxConnections, parse, now);
    } else {
      var before := steps[..|steps|-1];
      ScreenedExactly(limiter, maxConnections, parse, now, before);
      ScreensStep(Play(Start(limiter, maxConnections, parse, now), before).value, steps[|steps|-1]);
    }
  }

  // A screening passes exactly when there are no entries or one of them names the client,
  // and a client that does not pass is dropped.
  lemma ScreenDecides(s: Server, l: Listener, sec: Security)
    requires Enabled(s, Screen(l, sec))
    ensures var ip, next := s.At(l).ip, Apply(s, Screen(l, sec));
            var passes := sec.allowedNetworks == [] || exists e :: e in sec.allowedNetworks && Names(s.parse, e, ip);
            && next.screens == s.screens + [Screening(ip, passes)]
            && next.At(l) == (if !passes then Idle else if s.limiter.Some? then Screened(ip) else Waiting(ip))
  {
    hide CheckClientAllowed, Names;
    IngressExactly(s.parse, sec, s.At(l).ip);
  }

  /// A connection from beginning to end

  ghost predicate Goes(s: Server, step: Step, t: Server) {
    Enabled(s, step) && Apply(s, step) == t
  }

  lemma Then(s: Server, steps: seq<Step>, n: nat, t: Server, u: Server)
    requires n < |steps| && Play(s, steps[..n]) == Some(t) && Goes(t, steps[n], u)
    ensures Play(s, steps[..n+1]) == Some(u)
  {
    hide Enabled, Apply;
    assert steps[..n+1][..n] == steps[..n] && steps[..n+1][n] == steps[n];
  }

  lemma Begins(s: Server, steps: seq<Step>)
    ensures Play(s, steps[..0]) == Some(s)
  {
    assert steps[..0] == [];
  }

  function ScreenedState(s: Server, l: Listener, ip: Ip, allowed: bool): Server {
    s.(screens := s.screens + [Screening(ip, allowed)]).To(l,
      if !allowed then Idle else if s.limiter.Some? then Screened(ip) else Waiting(ip))
  }

  // The first two steps, for any client.
  lemma AcceptGoes(s: Server, l: Listener, ip: Ip, sec: Security)
    requires s.At(l).Idle?
    ensures var a := s.To(l, Accepted(ip));
            && Goes(s, Accept(l, ip), a)
            && Goes(a, Screen(l, sec), ScreenedState(s, l, ip, CheckClientAllowed(s.parse, sec, ip)))
  {
    hide CheckClientAllowed;
  }

  // The next two, for a client that passed.
  lemma CheckGoes(s: Server, l: Listener, ip: Ip)
    requires s.At(l) == Screened(ip) && s.limiter.Some?
    ensures var e := Check(s.clock, ip);
            var admitted := Allows(s.limiter.value, State(s.limiter.value, s.checks), e);
            var sampled := s.To(l, Sampled(ip, s.clock));
            && Goes(s, ReadClock(l), sampled)
            && Goes(sampled, CallLimiter(l),
                    s.(checks := s.checks + [e]).To(l, if admitted then Waiting(ip) else Idle))
  {
    hide Allows, State;
  }

  function Started(s: Server, l: Listener, ip: Ip): Server
    requires s.free > 0
  {
    s.(free := s.free - 1, total := s.total + 1, active := s.active + 1,
       tasks := s.tasks + [Task(l, ip, Running)]).To(l, Idle)
  }

  // The last four, for a client that was admitted and finds a permit.
  lemma StartGoes(s: Server, l: Listener, ip: Ip)
    requires s.At(l) == Waiting(ip) && s.free > 0
    ensures var a := s.(free := s.free - 1).To(l, Holding(ip));
            var b := a.(total := s.total + 1).To(l, CountedTotal(ip));
            var c := b.(active := s.active + 1).To(l, CountedActive(ip));
            && Goes(s, AcquirePermit(l), a) && Goes(a, AddTotal(l), b) && Goes(b, AddActive(l), c)
            && Goes(c, Spawn(l), Started(s, l, ip))
  {
  }

  function ConnectionSteps(l: Listener, ip: Ip, sec: Security): seq<Step> {
    [Accept(l, ip), Screen(l, sec), ReadClock(l), CallLimiter(l), AcquirePermit(l), AddTotal(l), AddActive(l), Spawn(l)]
  }

  lemma WaitingStarts(s: Server, steps: seq<Step>, n: nat, t: Server, l: Listener, ip: Ip)
    requires |steps| == n + 4 && steps[n..] == [AcquirePermit(l), AddTotal(l), AddActive(l), Spawn(l)]
    requires Play(s, steps[..n]) == Some(t) && t.At(l) == Waiting(ip) && t.free > 0
    ensures Play(s, steps) == Some(Started(t, l, ip))
  {
    hide Goes, Play;
    StartGoes(t, l, ip);
    var a := t.(free := t.free - 1).To(l, Holding(ip));
    var b := a.(total := t.total + 1).To(l, CountedTotal(ip));
    var c := b.(active := t.active + 1).To(l, CountedActive(ip));
    assert steps[n] == steps[n..][0] && steps[n+1] == steps[n..][1];
    assert steps[n+2] == steps[n..][2] && steps[n+3] == steps[n..][3];
    Then(s, steps, n, t, a);
    Then(s, steps, n + 1, a, b);
    Then(s, steps, n + 2, b, c);
    Then(s, steps, n + 3, c, Started(t, l, ip));
    assert steps[..n+4] == steps;
  }

  lemma TakesClient(s: Server, steps: seq<Step>, l: Listener, ip: Ip, sec: Security)
    requires s.At(l).Idle? && |steps| >= 2 && steps[0] == Accept(l, ip) && steps[1] == Screen(l, sec)
    ensures Play(s, steps[..2]) == Some(ScreenedState(s, l, ip, CheckClientAllowed(s.parse, sec, ip)))
  {
    hide Goes, Play, CheckClientAllowed;
    Begins(s, steps);
    AcceptGoes(s, l, ip, sec);
    Then(s, steps, 0, s, s.To(l, Accepted(ip)));
    Then(s, steps, 1, s.To(l, Accepted(ip)), ScreenedState(s, l, ip, CheckClientAllowed(s.parse, sec, ip)));
  }

  // After the limiter's verdict on a client that passed the screening.
  function CheckedState(s: Server, l: Listener, ip: Ip, admitted: bool): Server {
    s.(checks := s.checks + [Check(s.clock, ip)]).To(l, if admitted then Waiting(ip) else Idle)
  }

  lemma LimiterDecides(s: Server, steps: seq<Step>, t: Server, l: Listener, ip: Ip, c: Settings)
    requires |steps| >= 4 && steps[2] == ReadClock(l) && steps[3] == CallLimiter(l)
    requires Play(s, steps[..2]) == Some(t) && t.At(l) == Screened(ip) && t.limiter == Some(c)
    ensures Play(s, steps[..4]) ==
              Some(CheckedState(t, l, ip, Allows(c, State(c, t.checks), Check(t.clock, ip))))
  {
    hide Goes, Play, Allows, State;
    CheckGoes(t, l, ip);
    Then(s, steps, 2, t, t.To(l, Sampled(ip, t.clock)));
    Then(s, steps, 3, t.To(l, Sampled(ip, t.clock)),
         CheckedState(t, l, ip, Allows(c, State(c, t.checks), Check(t.clock, ip))));
  }

  // The record of one connection: its screening, its check, and its start.
  function Recorded(s: Server, l: Listener, ip: Ip, passes: bool, checked: bool, started: bool): Server {
    var screened := s.(screens := s.screens + [Screening(ip, passes)]);
    var after := if checked then screened.(checks := s.checks + [Check(s.clock, ip)]) else screened;
    if started && s.free > 0 then
      after.(free := s.free - 1, total := s.total + 1, active := s.active + 1,
             tasks := s.tasks + [Task(l, ip, Running)])
    else after
  }

  lemma ScreenedFields(s: Server, l: Listener, ip: Ip)
    requires s.At(l).Idle?
    ensures ScreenedState(s, l, ip, false) == Recorded(s, l, ip, false, false, false)
    ensures var t := ScreenedState(s, l, ip, true);
            && t.At(l) == (if s.limiter.Some? then Screened(ip) else Waiting(ip))
            && t.limiter == s.limiter && t.checks == s.checks && t.clock == s.clock && t.free == s.free
  {
  }

  lemma CheckedFields(s: Server, l: Listener, ip: Ip)
    requires s.At(l).Idle?
    ensures var t := ScreenedState(s, l, ip, true);
            && CheckedState(t, l, ip, false) == Recorded(s, l, ip, true, true, false)
            && CheckedState(t, l, ip, true).At(l) == Waiting(ip) && CheckedState(t, l, ip, true).free == s.free
  {
  }

  lemma StartedFields(s: Server, l: Listener, ip: Ip)
    requires s.At(l).Idle? && s.free > 0
    ensures var t := ScreenedState(s, l, ip, true);
            && (s.limiter.Some? ==>
                  Started(CheckedState(t, l, ip, true), l, ip) == Recorded(s, l, ip, true, true, true))
            && (s.limiter.None? ==> Started(t, l, ip) == Recorded(s, l, ip, true, false, true))
  {
  }

  lemma LongStepsEnd(l: Listener, ip: Ip, sec: Security)
    ensures ConnectionSteps(l, ip, sec)[4..] == [AcquirePermit(l), AddTotal(l), AddActive(l), Spawn(l)]
  {
  }

  // A connection that an idle acceptor takes, run without interruption. One that no entry
  // names is dropped, and only its screening is recorded. One that the limiter refuses
  // is dropped after its check. Any other is started as soon as there is a permit: it
  // holds one permit, is counted once in each counter, and the acceptor is idle again.
  lemma ConnectionExactly(s: Server, c: Settings, l: Listener, ip: Ip, sec: Security)
    requires s.At(l).Idle? && s.limiter == Some(c) && s.free > 0
    ensures var steps := ConnectionSteps(l, ip, sec);
            if !CheckClientAllowed(s.parse, sec, ip) then
              Play(s, steps[..2]) == Some(Recorded(s, l, ip, false, false, false))
            else if !Allows(c, State(c, s.checks), Check(s.clock, ip)) then
              Play(s, steps[..4]) == Some(Recorded(s, l, ip, true, true, false))
            else Play(s, steps) == Some(Recorded(s, l, ip, true, true, true))
  {
    hide Play, Allows, State, CheckClientAllowed, ScreenedState, CheckedState, Started, Recorded;
    var steps := ConnectionSteps(l, ip, sec);
    TakesClient(s, steps, l, ip, sec);
    ScreenedFields(s, l, ip);
    if CheckClientAllowed(s.parse, sec, ip) {
      var t := ScreenedState(s, l, ip, true);
      LimiterDecides(s, steps, t, l, ip, c);
      CheckedFields(s, l, ip);
      if Allows(c, State(c, s.checks), Check(s.clock, ip)) {
        LongStepsEnd(l, ip, sec);
        WaitingStarts(s, steps, 4, CheckedState(t, l, ip, true), l, ip);
        StartedFields(s, l, ip);
      }
    }
  }

  function ShortSteps(l: Listener, ip: Ip, sec: Security): seq<Step> {
    [Accept(l, ip), Screen(l, sec), AcquirePermit(l), AddTotal(l), AddActive(l), Spawn(l)]
  }

  lemma ShortStepsEnd(l: Listener, ip: Ip, sec: Security)
    ensures ShortSteps(l, ip, sec)[2..] == [AcquirePermit(l), AddTotal(l), AddActive(l), Spawn(l)]
  {
  }

  // Without a limiter the screening alone decides.
  lemma UnlimitedExactly(s: Server, l: Listener, ip: Ip, sec: Security)
    requires s.At(l).Idle? && s.limiter == None && s.free > 0
    ensures var steps := ShortSteps(l, ip, sec);
            if !CheckClientAllowed(s.parse, sec, ip) then
              Play(s, steps[..2]) == Some(Recorded(s, l, ip, false, false, false))
            else Play(s, steps) == Some(Recorded(s, l, ip, true, false, true))
  {
    hide Play, CheckClientAllowed, ScreenedState, Started, Recorded;
    var steps := ShortSteps(l, ip, sec);
    TakesClient(s, steps, l, ip, sec);
    ScreenedFields(s, l, ip);
    if CheckClientAllowed(s.parse, sec, ip) {
      ShortStepsEnd(l, ip, sec);
      WaitingStarts(s, steps, 2, ScreenedState(s, l, ip, true), l, ip);
      StartedFields(s, l, ip);
    }
  }

  // A running connection ends by leaving the active count and giving its permit back.
  lemma ConnectionEnds(s: Server, i: nat)
    requires i < |s.tasks| && s.tasks[i].phase == Running
    ensures Play(s, [HandlerEnds(i), TaskEnds(i)]) ==
              Some(s.(active := s.active - 1, free := s.free + 1,
                      tasks := s.tasks[i := s.tasks[i].(phase := Finished)]))
  {
    var steps := [HandlerEnds(i), TaskEnds(i)];
    var left := s.(active := s.active - 1, tasks := s.tasks[i := s.tasks[i].(phase := Leaving)]);
    assert left.tasks[i := left.tasks[i].(phase := Finished)] == s.tasks[i := s.tasks[i].(phase := Finished)];
    Begins(s, steps);
    Then(s, steps, 0, s, left);
    Then(s, steps, 1, left, Apply(left, TaskEnds(i)));
    assert steps[..2] == steps;
  }

  // In every reachable state an acceptor can go on, unless it waits for a permit while all
  // of them are held.
  lemma AcceptorGoesOn(limiter: Option<Settings>, maxConnections: nat, parse: AddressParser, now: int,
                       steps: seq<Step>, l: Listener, sec: Security)
    requires Play(Start(limiter, maxConnections, parse, now), steps).Some?
    ensures var s := Play(Start(limiter, maxConnections, parse, now), steps).value;
            || (s.At(l).Waiting? && s.free == 0 && Held(s) == maxConnections)
            || exists step :: Enabled(s, step) && Moves(step, l)
  {
    ScreenedExactly(limiter, maxConnections, parse, now, steps);
    PermitsAndCounters(limiter, maxConnections, parse, now, steps);
    hide Play, ScreensMatch;
    var s := Play(Start(limiter, maxConnections, parse, now), steps).value;
    if !(s.At(l).Waiting? && s.free == 0) {
      var step := match s.At(l)
        case Idle => Accept(l, V4(0))
        case Accepted(_) => Screen(l, sec)
        case Screened(_) => ReadClock(l)
        case Sampled(_, _) => CallLimiter(l)
        case Waiting(_) => AcquirePermit(l)
        case Holding(_) => AddTotal(l)
        case CountedTotal(_) => AddActive(l)
        case CountedActive(_) => Spawn(l);
      assert Enabled(s, step) && Moves(step, l);
    }
  }

  predicate Moves(step: Step, l: Listener) {
    match step
    case Tick(_) => false
    case HandlerEnds(_) => false
    case TaskEnds(_) => false
    case _ => step.l == l
  }
}
