/**
 When evicting stale buckets can and cannot be observed.
 */
module RateEviction {
  import opened Wrappers
  import opened Addresses
  import opened RateLimit
  import opened RateHistory

  function TimesOf(trace: seq<Check>, ip: Ip): seq<int> {
    if trace == [] then []
    else
      var e := trace[|trace|-1];
      TimesOf(trace[..|trace|-1], ip) + (if e.ip == ip then [e.now] else [])
  }

  lemma RunSnoc(c: Settings, trace: seq<Check>, e: Check, ip: Ip)
    ensures State(c, trace + [e]) == Next(c, State(c, trace), e)
    ensures TimesOf(trace + [e], ip) == TimesOf(trace, ip) + (if e.ip == ip then [e.now] else [])
  {
    assert (trace + [e])[..|trace|] == trace;
  }

  lemma SoloSnoc(c: Settings, times: seq<int>, t: int)
    ensures Solo(c, times + [t]) == Some(AfterCheck(c, Solo(c, times), t))
    ensures Admitted(c, times + [t]) == Admitted(c, times) + (if Admits(c, Solo(c, times), t) then [t] else [])
  {
    assert (times + [t])[..|times|] == times;
  }

  // The reference: every client has a bucket of its own that is never evicted.
  function SoloAnswers(c: Settings, trace: seq<Check>): (r: seq<bool>)
    ensures |r| == |trace|
  {
    if trace == [] then []
    else
      var before, e := trace[..|trace|-1], trace[|trace|-1];
      SoloAnswers(c, before) + [Admits(c, Solo(c, TimesOf(before, e.ip)), e.now)]
  }

  // An idle bucket is full again within the 600 seconds after which it may be evicted.
  predicate RefillsInTime(c: Settings) {
    10 * c.requestsPerMinute >= if c.burstSize == 0 then 1 else c.burstSize
  }

  predicate FullAt(c: Settings, b: Bucket, t: int) {
    b.lastRefill <= t && b.tokens + Gain(c, t - b.lastRefill) >= Burst(c)
  }

  // Present buckets agree with the reference, and missing ones are full in it.
  predicate Agrees(c: Settings, held: Option<Bucket>, solo: Option<Bucket>, t: int) {
    match held
    case Some(b) => solo == held && Sane(c, b) && b.lastRefill <= t
    case None => solo.Some? ==> FullAt(c, solo.value, t)
  }

  lemma GainGrows(c: Settings, a: nat, b: nat)
    requires a <= b
    ensures Gain(c, a) <= Gain(c, b)
  {
  }

  lemma AgreesLater(c: Settings, held: Option<Bucket>, solo: Option<Bucket>, t: int, u: int)
    requires Agrees(c, held, solo, t) && t <= u
    ensures Agrees(c, held, solo, u)
  {
    if held.None? && solo.Some? {
      GainGrows(c, t - solo.value.lastRefill, u - solo.value.lastRefill);
    }
  }

  lemma EvictedIsFull(c: Settings, b: Bucket, t: int)
    requires RefillsInTime(c) && Sane(c, b) && Elapsed(t, b.lastRefill) >= STALE
    ensures FullAt(c, b, t)
  {
    GainGrows(c, STALE, t - b.lastRefill);
  }

  lemma AgreesOnAnswer(c: Settings, held: Option<Bucket>, solo: Option<Bucket>, t: int)
    requires Agrees(c, held, solo, t)
    ensures Admits(c, held, t) == Admits(c, solo, t)
    ensures AfterCheck(c, held, t) == AfterCheck(c, solo, t)
    ensures Agrees(c, Some(AfterCheck(c, held, t)), Some(AfterCheck(c, solo, t)), t)
  {
  }

  lemma AgreesAfterNext(c: Settings, m: Buckets, e: Check, ip: Ip, solo: Option<Bucket>)
    requires Agrees(c, Lookup(Kept(m, e.now), ip), solo, e.now)
    ensures Agrees(c, Lookup(Next(c, m, e), ip), if e.ip == ip then Some(AfterCheck(c, solo, e.now)) else solo, e.now)
  {
    if e.ip == ip {
      AgreesOnAnswer(c, Lookup(Kept(m, e.now), ip), solo, e.now);
    }
  }

  lemma AgreesAfterEviction(c: Settings, m: Buckets, t: int, now: int, ip: Ip, solo: Option<Bucket>)
    requires RefillsInTime(c) && t <= now && Agrees(c, Lookup(m, ip), solo, t)
    ensures Agrees(c, Lookup(Kept(m, now), ip), solo, now)
  {
    AgreesLater(c, Lookup(m, ip), solo, t, now);
    if ip in m && ip !in Kept(m, now) {
      EvictedIsFull(c, m[ip], now);
    }
  }

  lemma {:induction false} KeptAgrees(c: Settings, trace: seq<Check>, now: int, ip: Ip)
    requires RefillsInTime(c) && InOrder(trace)
    requires trace != [] ==> trace[|trace|-1].now <= now
    ensures Agrees(c, Lookup(Kept(State(c, trace), now), ip), Solo(c, TimesOf(trace, ip)), now)
  {
    if trace != [] {
      hide Agrees, Next, Kept, AfterCheck, RefillsInTime;
      var before, e := trace[..|trace|-1], trace[|trace|-1];
      KeptAgrees(c, before, e.now, ip);
      assert trace == before + [e];
      RunSnoc(c, before, e, ip);
      SoloSnoc(c, TimesOf(before, ip), e.now);
      AgreesAfterNext(c, State(c, before), e, ip, Solo(c, TimesOf(before, ip)));
      assert e.ip != ip ==> TimesOf(trace, ip) == TimesOf(before, ip);
      AgreesAfterEviction(c, State(c, trace), e.now, now, ip, Solo(c, TimesOf(trace, ip)));
    }
  }

  // With settings that refill in time, every run over any clients answers as if no
  // bucket were ever evicted.
  lemma {:induction false} EvictionIsInvisible(c: Settings, trace: seq<Check>)
    requires RefillsInTime(c) && InOrder(trace)
    ensures Answers(c, trace) == SoloAnswers(c, trace)
  {
    if trace != [] {
      var before, e := trace[..|trace|-1], trace[|trace|-1];
      hide State, Kept, Solo, Agrees, Admits, AfterCheck;
      EvictionIsInvisible(c, before);
      KeptAgrees(c, before, e.now, e.ip);
      AgreesOnAnswer(c, Lookup(Kept(State(c, before), e.now), e.ip), Solo(c, TimesOf(before, e.ip)), e.now);
    }
  }

  /// Deleting the denied checks

  function WithoutDenied(c: Settings, trace: seq<Check>): seq<Check> {
    if trace == [] then []
    else
      var before, e := trace[..|trace|-1], trace[|trace|-1];
      WithoutDenied(c, before) + (if Allows(c, State(c, before), e) then [e] else [])
  }

  lemma {:induction false} AdmittedInOrder(c: Settings, times: seq<int>)
    requires Nondecreasing(times)
    ensures Nondecreasing(Admitted(c, times))
    ensures forall t :: t in Admitted(c, times) ==> times != [] && t <= times[|times|-1]
  {
    if times != [] {
      var before := times[..|times|-1];
      AdmittedInOrder(c, before);
      var adm := Admitted(c, before);
      assert forall k :: 0 <= k < |adm| ==> adm[k] in adm;
    }
  }

  lemma {:induction false} AdmittedReplays(c: Settings, times: seq<int>)
    requires Nondecreasing(times)
    ensures Admitted(c, Admitted(c, times)) == Admitted(c, times)
  {
    if times != [] {
      var before, t := times[..|times|-1], times[|times|-1];
      AdmittedReplays(c, before);
      AdmittedInOrder(c, before);
      var adm := Admitted(c, before);
      if Admits(c, Solo(c, before), t) {
        assert adm != [] ==> adm[|adm|-1] in adm;
        BucketIsExact(c, before, t);
        BucketIsExact(c, adm, t);
        assert (adm + [t])[..|adm|] == adm;
      } else {
        assert Admitted(c, times) == adm;
      }
    }
  }

  lemma {:induction false} WithoutDeniedInOrder(c: Settings, trace: seq<Check>)
    requires InOrder(trace)
    ensures InOrder(WithoutDenied(c, trace))
    ensures var w := WithoutDenied(c, trace); w != [] ==> trace != [] && w[|w|-1].now <= trace[|trace|-1].now
  {
    if trace != [] {
      var before, e := trace[..|trace|-1], trace[|trace|-1];
      WithoutDeniedInOrder(c, before);
      var w := WithoutDenied(c, before);
    }
  }

  lemma {:induction false} WithoutDeniedTimes(c: Settings, trace: seq<Check>, ip: Ip)
    requires RefillsInTime(c) && InOrder(trace)
    ensures TimesOf(WithoutDenied(c, trace), ip) == Admitted(c, TimesOf(trace, ip))
  {
    if trace != [] {
      var before, e := trace[..|trace|-1], trace[|trace|-1];
      WithoutDeniedTimes(c, before, ip);
      WithoutDeniedStep(c, before, e, ip);
      assert trace == before + [e];
    }
  }

  lemma WithoutDeniedStep(c: Settings, before: seq<Check>, e: Check, ip: Ip)
    requires RefillsInTime(c) && InOrder(before + [e])
    requires TimesOf(WithoutDenied(c, before), ip) == Admitted(c, TimesOf(before, ip))
    ensures TimesOf(WithoutDenied(c, before + [e]), ip) == Admitted(c, TimesOf(before + [e], ip))
  {
    var w, times := WithoutDenied(c, before), TimesOf(before, ip);
    assert (before + [e])[..|before|] == before;
    assert w + [] == w && times + [] == times && TimesOf(w, ip) + [] == TimesOf(w, ip);
    RunSnoc(c, before, e, ip);
    RunSnoc(c, w, e, ip);
    if e.ip == ip {
      assert before != [] ==> (before + [e])[|before|-1].now <= (before + [e])[|before|].now;
      KeptAgrees(c, before, e.now, ip);
      AgreesOnAnswer(c, Lookup(Kept(State(c, before), e.now), ip), Solo(c, times), e.now);
      SoloSnoc(c, times, e.now);
    }
  }

  lemma {:induction false} TimesOfInOrder(trace: seq<Check>, ip: Ip)
    requires InOrder(trace)
    ensures Nondecreasing(TimesOf(trace, ip))
    ensures forall t :: t in TimesOf(trace, ip) ==> trace != [] && t <= trace[|trace|-1].now
  {
    if trace != [] {
      var before, e := trace[..|trace|-1], trace[|trace|-1];
      TimesOfInOrder(before, ip);
      var l := TimesOf(before, ip);
      assert forall k :: 0 <= k < |l| ==> l[k] in l;
    }
  }

  // Denied checks leave no trace: with settings that refill in time, the next answer
  // is the same whether or not the earlier denied checks had ever been made.
  lemma DeniedChecksDoNotMatter(c: Settings, trace: seq<Check>, e: Check)
    requires RefillsInTime(c) && InOrder(trace + [e])
    ensures Allows(c, State(c, trace), e) == Allows(c, State(c, WithoutDenied(c, trace)), e)
  {
    var w := WithoutDenied(c, trace);
    assert (trace + [e])[..|trace|] == trace;
    if trace != [] {
      assert (trace + [e])[|trace|-1].now <= (trace + [e])[|trace|].now;
    }
    WithoutDeniedInOrder(c, trace);
    WithoutDeniedTimes(c, trace, e.ip);
    KeptAgrees(c, trace, e.now, e.ip);
    KeptAgrees(c, w, e.now, e.ip);
    AgreesOnAnswer(c, Lookup(Kept(State(c, trace), e.now), e.ip), Solo(c, TimesOf(trace, e.ip)), e.now);
    AgreesOnAnswer(c, Lookup(Kept(State(c, w), e.now), e.ip), Solo(c, TimesOf(w, e.ip)), e.now);
    var times := TimesOf(trace, e.ip);
    TimesOfInOrder(trace, e.ip);
    AdmittedInOrder(c, times);
    AdmittedReplays(c, times);
    var adm := Admitted(c, times);
    assert times != [] ==> times[|times|-1] in times;
    assert adm != [] ==> adm[|adm|-1] in adm;
    BucketIsExact(c, times, e.now);
    BucketIsExact(c, adm, e.now);
  }

  /// Settings too slow to refill in time

  function Repeat(e: Check, n: nat): (r: seq<Check>)
    ensures |r| == n
  {
    seq(n, i => e)
  }

  const DRAINED: Ip := V6(0)

  function Others(n: nat): (r: seq<Check>)
    requires n <= MAX_BUCKETS
    ensures |r| == n
  {
    seq(n, i requires 0 <= i < n => Check(0, V4(i)))
  }

  lemma DrainStep(c: Settings, n: nat)
    requires n < BurstTokens(c)
    ensures var b := Bucket((BurstTokens(c) - n) * TOKEN, 0);
            var spent := Bucket((BurstTokens(c) - n - 1) * TOKEN, 0);
            && AfterCheck(c, Some(b), 0) == spent
            && Next(c, map[DRAINED := b], Check(0, DRAINED)) == map[DRAINED := spent]
  {
    var b := Bucket((BurstTokens(c) - n) * TOKEN, 0);
    assert Gain(c, 0) == 0;
    assert |map[DRAINED := b]| == 1;
  }

  lemma {:induction false} DrainState(c: Settings, n: nat)
    requires 1 <= n <= BurstTokens(c)
    ensures State(c, Repeat(Check(0, DRAINED), n)) == map[DRAINED := Bucket((BurstTokens(c) - n) * TOKEN, 0)]
    ensures Solo(c, TimesOf(Repeat(Check(0, DRAINED), n), DRAINED)) == Some(Bucket((BurstTokens(c) - n) * TOKEN, 0))
  {
    var e := Check(0, DRAINED);
    var before := Repeat(e, n - 1);
    assert Repeat(e, n) == before + [e];
    RunSnoc(c, before, e, DRAINED);
    SoloSnoc(c, TimesOf(before, DRAINED), 0);
    if n > 1 {
      DrainState(c, n - 1);
      DrainStep(c, n - 1);
    } else {
      assert before == [];
    }
  }

  ghost predicate Crowded(m: Buckets, n: nat) {
    && |m| == n + 1
    && (forall ip :: ip in m <==> ip == DRAINED || (ip.V4? && ip.v4 < n))
    && (forall ip :: ip in m ==> m[ip].lastRefill == 0)
    && m[DRAINED] == Bucket(0, 0)
  }

  lemma CrowdStep(c: Settings, m: Buckets, n: nat)
    requires n < MAX_BUCKETS && Crowded(m, n)
    ensures Crowded(Next(c, m, Check(0, V4(n))), n + 1)
  {
    assert V4(n) !in m;
  }

  lemma {:induction false} CrowdState(c: Settings, n: nat)
    requires n <= MAX_BUCKETS
    ensures var trace := Repeat(Check(0, DRAINED), BurstTokens(c)) + Others(n);
            && Crowded(State(c, trace), n)
            && Solo(c, TimesOf(trace, DRAINED)) == Some(Bucket(0, 0))
  {
    var drain := Repeat(Check(0, DRAINED), BurstTokens(c));
    if n == 0 {
      assert drain + Others(0) == drain;
      DrainState(c, BurstTokens(c));
      assert |State(c, drain)| == 1;
    } else {
      hide State, Solo, TimesOf, Crowded, Next;
      var before := drain + Others(n - 1);
      CrowdState(c, n - 1);
      CrowdSnoc(c, n - 1);
      RunSnoc(c, before, Check(0, V4(n - 1)), DRAINED);
      CrowdStep(c, State(c, before), n - 1);
      assert TimesOf(before, DRAINED) + [] == TimesOf(before, DRAINED);
    }
  }

  // One client spends its burst at time 0, ten thousand others connect once, and
  // 600 seconds later the first client comes back `k` times.
  function AfterReturn(c: Settings, k: nat): seq<Check> {
    Repeat(Check(0, DRAINED), BurstTokens(c)) + Others(MAX_BUCKETS) + Repeat(Check(STALE, DRAINED), k)
  }

  lemma AfterReturnSnoc(c: Settings, k: nat)
    ensures AfterReturn(c, k + 1) == AfterReturn(c, k) + [Check(STALE, DRAINED)]
  {
    assert Repeat(Check(STALE, DRAINED), k + 1) == Repeat(Check(STALE, DRAINED), k) + [Check(STALE, DRAINED)];
  }

  // What the limiter and the reference hold for the drained client after `k` of its later checks.
  predicate Returned(c: Settings, m: Buckets, solo: Option<Bucket>, k: nat) {
    && Lookup(Kept(m, STALE), DRAINED) == (if k == 0 then None else Some(Bucket((BurstTokens(c) - k) * TOKEN, STALE)))
    && Kept(m, STALE).Keys <= {DRAINED}
    && Refilled(c, solo, STALE) == (10 * c.requestsPerMinute - k) * TOKEN
  }

  lemma ReturnStep(c: Settings, m: Buckets, solo: Option<Bucket>, k: nat)
    requires !RefillsInTime(c) && k < 10 * c.requestsPerMinute && Returned(c, m, solo, k)
    ensures Returned(c, Next(c, m, Check(STALE, DRAINED)), Some(AfterCheck(c, solo, STALE)), k + 1)
  {
    var next := Next(c, m, Check(STALE, DRAINED));
    assert next.Keys == {DRAINED};
    assert |next| == |next.Keys|;
    assert Gain(c, 0) == 0;
  }

  lemma CrowdReturns(c: Settings, m: Buckets)
    requires !RefillsInTime(c) && Crowded(m, MAX_BUCKETS)
    ensures Returned(c, m, Some(Bucket(0, 0)), 0)
  {
    assert Kept(m, STALE) == map[];
  }

  lemma ReturnBase(c: Settings)
    requires !RefillsInTime(c)
    ensures Returned(c, State(c, AfterReturn(c, 0)), Solo(c, TimesOf(AfterReturn(c, 0), DRAINED)), 0)
  {
    var crowd := Repeat(Check(0, DRAINED), BurstTokens(c)) + Others(MAX_BUCKETS);
    assert AfterReturn(c, 0) == crowd;
    CrowdState(c, MAX_BUCKETS);
    CrowdReturns(c, State(c, crowd));
  }

  lemma {:induction false} ReturnState(c: Settings, k: nat)
    requires !RefillsInTime(c) && k <= 10 * c.requestsPerMinute
    ensures var trace := AfterReturn(c, k);
            Returned(c, State(c, trace), Solo(c, TimesOf(trace, DRAINED)), k)
  {
    if k == 0 {
      ReturnBase(c);
    } else {
      ReturnState(c, k - 1);
      AfterReturnSnoc(c, k - 1);
      ReturnSnoc(c, AfterReturn(c, k - 1), k - 1);
    }
  }

  lemma ReturnSnoc(c: Settings, before: seq<Check>, k: nat)
    requires !RefillsInTime(c) && k < 10 * c.requestsPerMinute
    requires Returned(c, State(c, before), Solo(c, TimesOf(before, DRAINED)), k)
    ensures var trace := before + [Check(STALE, DRAINED)];
            Returned(c, State(c, trace), Solo(c, TimesOf(trace, DRAINED)), k + 1)
  {
    RunSnoc(c, before, Check(STALE, DRAINED), DRAINED);
    SoloSnoc(c, TimesOf(before, DRAINED), STALE);
    ReturnStep(c, State(c, before), Solo(c, TimesOf(before, DRAINED)), k);
  }

  lemma {:induction false} AnswersLast(c: Settings, trace: seq<Check>, e: Check)
    ensures Answers(c, trace + [e])[|trace|] == Allows(c, State(c, trace), e)
    ensures SoloAnswers(c, trace + [e])[|trace|] == Admits(c, Solo(c, TimesOf(trace, e.ip)), e.now)
  {
    assert (trace + [e])[..|trace|] == trace;
  }

  // Eviction is invisible for exactly the settings that refill in time.
  lemma EvictionIsInvisibleExactlyWhen(c: Settings)
    ensures RefillsInTime(c) <==>
            forall trace :: InOrder(trace) ==> Answers(c, trace) == SoloAnswers(c, trace)
  {
    if RefillsInTime(c) {
      forall trace | InOrder(trace) ensures Answers(c, trace) == SoloAnswers(c, trace) {
        EvictionIsInvisible(c, trace);
      }
    } else {
      var n := 10 * c.requestsPerMinute;
      var trace, e := AfterReturn(c, n), Check(STALE, DRAINED);
      ReturnState(c, n);
      AnswersLast(c, trace, e);
      RevealingInOrder(c, n);
      assert Answers(c, trace + [e])[|trace|] != SoloAnswers(c, trace + [e])[|trace|];
    }
  }

  lemma RevealingInOrder(c: Settings, k: nat)
    ensures InOrder(AfterReturn(c, k) + [Check(STALE, DRAINED)])
  {
    var trace := AfterReturn(c, k) + [Check(STALE, DRAINED)];
    assert forall i :: 0 <= i < |trace| ==> trace[i].now == if i < BurstTokens(c) + MAX_BUCKETS then 0 else STALE;
  }

  /// For slower settings a denied check can matter

  // The same visit, but with one more check of the drained client, denied, soon after
  // time 0: it keeps that client's bucket from going stale with the others.
  function WithDenied(c: Settings, k: nat): seq<Check> {
    Repeat(Check(0, DRAINED), BurstTokens(c)) + Others(MAX_BUCKETS) + [Check(1, DRAINED)]
    + Repeat(Check(STALE, DRAINED), k)
  }

  lemma WithoutSnoc(c: Settings, trace: seq<Check>, e: Check)
    ensures WithoutDenied(c, trace + [e]) ==
            WithoutDenied(c, trace) + (if Allows(c, State(c, trace), e) then [e] else [])
  {
    assert (trace + [e])[..|trace|] == trace;
  }

  lemma {:induction false} DrainAllAdmitted(c: Settings, n: nat)
    requires n <= BurstTokens(c)
    ensures var drain := Repeat(Check(0, DRAINED), n); WithoutDenied(c, drain) == drain
  {
    if n > 0 {
      var before, e := Repeat(Check(0, DRAINED), n - 1), Check(0, DRAINED);
      DrainAllAdmitted(c, n - 1);
      assert Repeat(e, n) == before + [e];
      assert Allows(c, State(c, before), e) by { DrainAdmits(c, n); }
      WithoutSnoc(c, before, e);
    } else {
      assert Repeat(Check(0, DRAINED), 0) == [];
    }
  }

  lemma DrainAdmits(c: Settings, n: nat)
    requires 1 <= n <= BurstTokens(c)
    ensures Allows(c, State(c, Repeat(Check(0, DRAINED), n - 1)), Check(0, DRAINED))
  {
    if n > 1 {
      DrainState(c, n - 1);
      var b := Bucket((BurstTokens(c) - n + 1) * TOKEN, 0);
      assert |map[DRAINED := b]| == 1;
      assert Gain(c, 0) == 0;
    } else {
      assert Repeat(Check(0, DRAINED), 0) == [];
    }
  }

  lemma NewcomerAdmitted(c: Settings, m: Buckets, n: nat)
    requires n < MAX_BUCKETS && Crowded(m, n)
    ensures Allows(c, m, Check(0, V4(n)))
  {
  }

  lemma CrowdSnoc(c: Settings, n: nat)
    requires n < MAX_BUCKETS
    ensures var drain := Repeat(Check(0, DRAINED), BurstTokens(c));
            drain + Others(n + 1) == (drain + Others(n)) + [Check(0, V4(n))]
  {
  }

  lemma {:induction false} CrowdAllAdmitted(c: Settings, n: nat)
    requires n <= MAX_BUCKETS
    ensures var trace := Repeat(Check(0, DRAINED), BurstTokens(c)) + Others(n); WithoutDenied(c, trace) == trace
  {
    hide State, WithoutDenied, Allows, Next, Crowded;
    var drain := Repeat(Check(0, DRAINED), BurstTokens(c));
    if n == 0 {
      assert drain + Others(0) == drain;
      DrainAllAdmitted(c, BurstTokens(c));
    } else {
      var before, e := drain + Others(n - 1), Check(0, V4(n - 1));
      CrowdAllAdmitted(c, n - 1);
      CrowdState(c, n - 1);
      CrowdSnoc(c, n - 1);
      NewcomerAdmitted(c, State(c, before), n - 1);
      WithoutSnoc(c, before, e);
    }
  }

  // The denied check leaves every bucket in place and only the drained client's fresh.
  predicate OnlyDrainedFresh(c: Settings, m: Buckets) {
    && |m| > MAX_BUCKETS && DRAINED in m
    && m[DRAINED] == Bucket(Gain(c, 1), 1)
    && forall ip :: ip in m && ip != DRAINED ==> m[ip].lastRefill == 0
  }

  lemma DeniedStep(c: Settings, m: Buckets)
    requires !RefillsInTime(c) && Crowded(m, MAX_BUCKETS)
    ensures !Allows(c, m, Check(1, DRAINED)) && OnlyDrainedFresh(c, Next(c, m, Check(1, DRAINED)))
  {
    assert Kept(m, 1) == m;
  }

  // What the limiter holds for the drained client after `k` of its later checks.
  predicate Lingers(c: Settings, m: Buckets, k: nat) {
    && Kept(m, STALE).Keys == {DRAINED}
    && Refilled(c, Lookup(Kept(m, STALE), DRAINED), STALE) == (10 * c.requestsPerMinute - k) * TOKEN
  }

  lemma FirstLingers(c: Settings, m: Buckets)
    requires !RefillsInTime(c) && OnlyDrainedFresh(c, m)
    ensures Lingers(c, m, 0)
  {
    assert Elapsed(STALE, 1) == STALE - 1;
    assert Gain(c, 1) + Gain(c, STALE - 1) == 10 * c.requestsPerMinute * TOKEN;
  }

  lemma LingersStep(c: Settings, m: Buckets, k: nat)
    requires !RefillsInTime(c) && k < 10 * c.requestsPerMinute && Lingers(c, m, k)
    ensures Allows(c, m, Check(STALE, DRAINED)) && Lingers(c, Next(c, m, Check(STALE, DRAINED)), k + 1)
  {
    var next := Next(c, m, Check(STALE, DRAINED));
    assert next.Keys == {DRAINED};
    assert |next| == |next.Keys|;
    assert Gain(c, 0) == 0;
  }

  lemma WithDeniedBase(c: Settings)
    requires !RefillsInTime(c)
    ensures Lingers(c, State(c, WithDenied(c, 0)), 0)
    ensures WithoutDenied(c, WithDenied(c, 0)) == AfterReturn(c, 0)
  {
    var crowd := Repeat(Check(0, DRAINED), BurstTokens(c)) + Others(MAX_BUCKETS);
    assert WithDenied(c, 0) == crowd + [Check(1, DRAINED)];
    assert AfterReturn(c, 0) == crowd && crowd + [] == crowd;
    CrowdState(c, MAX_BUCKETS);
    CrowdAllAdmitted(c, MAX_BUCKETS);
    DeniedStep(c, State(c, crowd));
    RunSnoc(c, crowd, Check(1, DRAINED), DRAINED);
    WithoutSnoc(c, crowd, Check(1, DRAINED));
    FirstLingers(c, Next(c, State(c, crowd), Check(1, DRAINED)));
  }

  lemma {:induction false} WithDeniedState(c: Settings, k: nat)
    requires !RefillsInTime(c) && k <= 10 * c.requestsPerMinute
    ensures Lingers(c, State(c, WithDenied(c, k)), k)
    ensures WithoutDenied(c, WithDenied(c, k)) == AfterReturn(c, k)
  {
    hide Lingers, State, WithoutDenied, Next, Allows;
    if k == 0 {
      WithDeniedBase(c);
    } else {
      var before, e := WithDenied(c, k - 1), Check(STALE, DRAINED);
      WithDeniedState(c, k - 1);
      WithDeniedSnoc(c, k - 1);
      AfterReturnSnoc(c, k - 1);
      RunSnoc(c, before, e, DRAINED);
      WithoutSnoc(c, before, e);
      LingersStep(c, State(c, before), k - 1);
    }
  }

  lemma WithDeniedSnoc(c: Settings, k: nat)
    ensures WithDenied(c, k + 1) == WithDenied(c, k) + [Check(STALE, DRAINED)]
  {
    assert Repeat(Check(STALE, DRAINED), k + 1) == Repeat(Check(STALE, DRAINED), k) + [Check(STALE, DRAINED)];
  }

  lemma WithDeniedInOrder(c: Settings, k: nat)
    ensures InOrder(WithDenied(c, k) + [Check(STALE, DRAINED)])
  {
    var trace := WithDenied(c, k) + [Check(STALE, DRAINED)];
    var n := BurstTokens(c) + MAX_BUCKETS;
    assert forall i :: 0 <= i < |trace| ==> trace[i].now == if i < n then 0 else if i == n then 1 else STALE;
  }

  // Deleting the denied checks changes no later answer for exactly the settings that
  // refill in time.
  lemma DeniedChecksDoNotMatterExactlyWhen(c: Settings)
    ensures RefillsInTime(c) <==>
            forall trace, e :: InOrder(trace + [e]) ==>
              Allows(c, State(c, trace), e) == Allows(c, State(c, WithoutDenied(c, trace)), e)
  {
    hide Allows, State, WithoutDenied;
    if RefillsInTime(c) {
      forall trace, e | InOrder(trace + [e])
        ensures Allows(c, State(c, trace), e) == Allows(c, State(c, WithoutDenied(c, trace)), e)
      {
        DeniedChecksDoNotMatter(c, trace, e);
      }
    } else {
      var n := 10 * c.requestsPerMinute;
      var trace, e := WithDenied(c, n), Check(STALE, DRAINED);
      WithDeniedState(c, n);
      WithDeniedInOrder(c, n);
      ReturnState(c, n);
      assert !Allows(c, State(c, trace), e) by { SpentRefuses(c, State(c, trace)); }
      var without := AfterReturn(c, n);
      assert Allows(c, State(c, without), e) by {
        FreshAdmits(c, State(c, without), Solo(c, TimesOf(without, DRAINED)));
      }
    }
  }

  lemma SpentRefuses(c: Settings, m: Buckets)
    requires Lingers(c, m, 10 * c.requestsPerMinute)
    ensures !Allows(c, m, Check(STALE, DRAINED))
  {
  }

  lemma FreshAdmits(c: Settings, m: Buckets, solo: Option<Bucket>)
    requires !RefillsInTime(c) && Returned(c, m, solo, 10 * c.requestsPerMinute)
    ensures Allows(c, m, Check(STALE, DRAINED))
  {
    assert Gain(c, 0) == 0;
  }
}
