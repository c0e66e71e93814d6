/**
 How many clients it takes before eviction can be observed.
 */
module RateClients {
  import opened Wrappers
  import opened Addresses
  import opened RateLimit
  import opened RateEviction

  function Clients(trace: seq<Check>): set<Ip> {
    if trace == [] then {} else Clients(trace[..|trace|-1]) + {trace[|trace|-1].ip}
  }

  lemma {:induction false} SubsetIsSmaller<T>(a: set<T>, b: set<T>)
    requires a <= b
    ensures |a| <= |b|
  {
    if x :| x in a {
      SubsetIsSmaller(a - {x}, b - {x});
    }
  }

  lemma {:induction false} BucketsAreClients(c: Settings, trace: seq<Check>)
    ensures State(c, trace).Keys <= Clients(trace) && |State(c, trace)| <= |Clients(trace)|
  {
    if trace != [] {
      BucketsAreClients(c, trace[..|trace|-1]);
    }
    var m := State(c, trace);
    SubsetIsSmaller(m.Keys, Clients(trace));
    assert |m| == |m.Keys|;
  }

  lemma NothingKeptOut(c: Settings, before: seq<Check>, now: int)
    requires |Clients(before)| <= 10_000
    ensures Kept(State(c, before), now) == State(c, before)
  {
    BucketsAreClients(c, before);
  }

  lemma ClientsGrow(trace: seq<Check>)
    requires trace != []
    ensures |Clients(trace[..|trace|-1])| <= |Clients(trace)|
  {
    SubsetIsSmaller(Clients(trace[..|trace|-1]), Clients(trace));
  }

  lemma NextLooksUp(c: Settings, m: Buckets, e: Check, ip: Ip)
    requires Kept(m, e.now) == m
    ensures Lookup(Next(c, m, e), ip) ==
              if e.ip == ip then Some(AfterCheck(c, Lookup(m, ip), e.now)) else Lookup(m, ip)
  {
  }

  lemma FewStep(c: Settings, before: seq<Check>, e: Check, ip: Ip)
    requires Kept(State(c, before), e.now) == State(c, before)
    requires Lookup(State(c, before), ip) == Solo(c, TimesOf(before, ip))
    ensures Lookup(State(c, before + [e]), ip) == Solo(c, TimesOf(before + [e], ip))
  {
    hide Kept, AfterCheck, State, Solo, TimesOf, Next, Lookup, Admits, Admitted;
    RunSnoc(c, before, e, ip);
    NextLooksUp(c, State(c, before), e, ip);
    var times := TimesOf(before, ip);
    if e.ip == ip {
      SoloSnoc(c, times, e.now);
    } else {
      assert times + [] == times;
    }
  }

  lemma NobodyYet(c: Settings, ip: Ip)
    ensures Lookup(State(c, []), ip) == Solo(c, TimesOf([], ip))
  {
  }

  lemma {:induction false} FewAreNeverEvicted(c: Settings, trace: seq<Check>, ip: Ip)
    requires |Clients(trace)| <= 10_000
    ensures Lookup(State(c, trace), ip) == Solo(c, TimesOf(trace, ip))
    decreases |trace|
  {
    hide Kept, Clients, State, Solo, TimesOf, Lookup;
    if trace == [] {
      NobodyYet(c, ip);
    } else {
      var before, e := trace[..|trace|-1], trace[|trace|-1];
      assert trace == before + [e];
      ClientsGrow(trace);
      FewAreNeverEvicted(c, before, ip);
      NothingKeptOut(c, before, e.now);
      FewStep(c, before, e, ip);
    }
  }

  // With at most 10,000 clients, whatever the settings and the order of the times, every
  // client is answered as if it had the limiter for itself.
  lemma {:induction false} FewClientsAreIndependent(c: Settings, trace: seq<Check>)
    requires |Clients(trace)| <= 10_000
    ensures Answers(c, trace) == SoloAnswers(c, trace)
  {
    if trace != [] {
      hide Kept, Admits, State, Clients;
      var before, e := trace[..|trace|-1], trace[|trace|-1];
      ClientsGrow(trace);
      FewClientsAreIndependent(c, before);
      FewAreNeverEvicted(c, before, e.ip);
      NothingKeptOut(c, before, e.now);
    }
  }

  /// One client more is enough

  lemma {:induction false} ClientsAppend(a: seq<Check>, b: seq<Check>)
    ensures Clients(a + b) == Clients(a) + Clients(b)
    decreases |b|
  {
    if b == [] {
      assert a + b == a;
    } else {
      var rest, e := b[..|b|-1], b[|b|-1];
      ClientsAppend(a, rest);
      assert (a + b)[..|a + b| - 1] == a + rest && (a + b)[|a + b| - 1] == e;
    }
  }

  lemma {:induction false} ClientsOfRepeat(now: int, n: nat)
    ensures Clients(Repeat(Check(now, DRAINED), n)) <= {DRAINED}
    ensures n > 0 ==> DRAINED in Clients(Repeat(Check(now, DRAINED), n))
  {
    if n > 0 {
      ClientsOfRepeat(now, n - 1);
      assert Repeat(Check(now, DRAINED), n)[..n-1] == Repeat(Check(now, DRAINED), n - 1);
    }
  }

  lemma {:induction false} ClientsOfOthers(n: nat)
    requires n <= MAX_BUCKETS
    ensures |Clients(Others(n))| == n
    ensures forall ip :: ip in Clients(Others(n)) ==> ip.V4? && ip.v4 < n
  {
    if n > 0 {
      ClientsOfOthers(n - 1);
      assert Others(n)[..n-1] == Others(n - 1);
      assert V4(n - 1) !in Clients(Others(n - 1));
    }
  }

  // The visit after which one more check tells whether a bucket was evicted.
  function TellingTrace(c: Settings): seq<Check> {
    AfterReturn(c, 10 * c.requestsPerMinute) + [Check(STALE, DRAINED)]
  }

  lemma TellingClients(c: Settings)
    ensures |Clients(TellingTrace(c))| == 10_001
  {
    hide Clients, Others, Repeat;
    var n := 10 * c.requestsPerMinute;
    var drain, others := Repeat(Check(0, DRAINED), BurstTokens(c)), Others(MAX_BUCKETS);
    var back := Repeat(Check(STALE, DRAINED), n);
    ClientsAppend(drain, others);
    ClientsAppend(drain + others, back);
    ClientsAppend(drain + others + back, [Check(STALE, DRAINED)]);
    ClientsOfRepeat(0, BurstTokens(c));
    ClientsOfRepeat(STALE, n);
    ClientsOfOthers(MAX_BUCKETS);
    assert Clients([Check(STALE, DRAINED)]) <= {DRAINED} by { OneClient(Check(STALE, DRAINED)); }
    assert Clients(TellingTrace(c)) == Clients(others) + {DRAINED};
  }

  lemma OneClient(e: Check)
    ensures Clients([e]) == {e.ip}
  {
    assert [e][..0] == [];
  }

  // Eviction can be observed among `n` clients exactly when `n` is above 10,000 and a
  // burst takes longer to refill than 600 seconds.
  lemma EvictionShowsExactlyWhen(c: Settings, n: nat)
    ensures (exists trace :: InOrder(trace) && |Clients(trace)| <= n && Answers(c, trace) != SoloAnswers(c, trace))
            <==> n > 10_000 && 10 * c.requestsPerMinute < if c.burstSize == 0 then 1 else c.burstSize
  {
    hide Clients, Answers, SoloAnswers;
    if trace :| InOrder(trace) && |Clients(trace)| <= n && Answers(c, trace) != SoloAnswers(c, trace) {
      if n <= 10_000 {
        FewClientsAreIndependent(c, trace);
      }
      if RefillsInTime(c) {
        EvictionIsInvisible(c, trace);
      }
    }
    if n > 10_000 && !RefillsInTime(c) {
      TellingClients(c);
      Tells(c);
      assert |Clients(TellingTrace(c))| <= n;
    }
  }

  lemma Tells(c: Settings)
    requires !RefillsInTime(c)
    ensures InOrder(TellingTrace(c)) && Answers(c, TellingTrace(c)) != SoloAnswers(c, TellingTrace(c))
  {
    hide Answers, SoloAnswers, State, Solo;
    var n := 10 * c.requestsPerMinute;
    var trace, e := AfterReturn(c, n), Check(STALE, DRAINED);
    ReturnState(c, n);
    AnswersLast(c, trace, e);
    RevealingInOrder(c, n);
    assert TellingTrace(c) == trace + [e];
  }
}
