/**
 How much one client can be admitted in a stretch of a run, for all settings,
 with evictions, and with clock readings that may step back in lock order
 (the clock is read before the lock is taken).
 */
module RateWindow {
  import opened Addresses
  import opened RateLimit

  // The total forward movement of the clock readings along a run.
  function Forward(win: seq<Check>): nat {
    if |win| <= 1 then 0
    else
      var last, before := win[|win|-1].now, win[|win|-2].now;
      Forward(win[..|win|-1]) + (if before <= last then last - before else 0)
  }

  // The total backward movement.
  function Backward(win: seq<Check>): nat {
    if |win| <= 1 then 0
    else
      var last, before := win[|win|-1].now, win[|win|-2].now;
      Backward(win[..|win|-1]) + (if last <= before then before - last else 0)
  }

  lemma {:induction false} ForwardIsNetPlusBackward(win: seq<Check>)
    requires win != []
    ensures Forward(win) == win[|win|-1].now - win[0].now + Backward(win)
  {
    if |win| > 1 {
      ForwardIsNetPlusBackward(win[..|win|-1]);
    }
  }

  // A burst for the stretch and for each 600 seconds of it, and the refill.
  function Allowance(c: Settings, ns: nat): int {
    Burst(c) + ns / STALE * Burst(c) + Gain(c, ns)
  }

  lemma Scales(x: int, y: int, d: int, b: int)
    requires x + d <= y && 0 <= b
    ensures x * b + d * b <= y * b
  {
    assert (y - x - d) * b >= 0;
  }

  lemma GainAdds(c: Settings, a: nat, b: nat)
    ensures Gain(c, a + b) == Gain(c, a) + Gain(c, b)
  {
  }

  lemma AllowanceGrows(c: Settings, a: nat, b: nat)
    requires a <= b
    ensures Allowance(c, b) >= Allowance(c, a) + Gain(c, b - a)
    ensures b - a >= STALE ==> Allowance(c, b) >= Allowance(c, a) + Burst(c)
  {
    GainAdds(c, a, b - a);
    Scales(a / STALE, b / STALE, if b - a >= STALE then 1 else 0, Burst(c));
  }

  // The checks of `ip` that are admitted during `win`, run after `pre`.
  function Count(c: Settings, pre: seq<Check>, win: seq<Check>, ip: Ip): nat {
    if win == [] then 0
    else
      var before, e := win[..|win|-1], win[|win|-1];
      Count(c, pre, before, ip)
      + (if e.ip == ip && Allows(c, State(c, pre + before), e) then 1 else 0)
  }

  // Which check of `win` was the last one of `ip`, or |win| when there is none.
  function LastOf(win: seq<Check>, ip: Ip): (r: nat)
    ensures r <= |win|
    ensures r < |win| ==> win[r].ip == ip
  {
    if win == [] then 0
    else
      var before := win[..|win|-1];
      if win[|win|-1].ip == ip then |win| - 1
      else if LastOf(before, ip) < |before| then LastOf(before, ip) else |win|
  }

  // What the run owes to the client's allowance up to its last check in the stretch.
  predicate Paid(c: Settings, m: Buckets, count: nat, ip: Ip, last: int, spent: nat, now: int, elapsed: nat) {
    && spent <= elapsed
    && now - last <= elapsed - spent
    && count * TOKEN + (if ip in m then m[ip].tokens else 0) <= Allowance(c, spent)
    && (if ip in m then m[ip].lastRefill == last else elapsed - spent >= STALE)
  }

  predicate Within(c: Settings, pre: seq<Check>, win: seq<Check>, ip: Ip) {
    var k := LastOf(win, ip);
    if k == |win| then Count(c, pre, win, ip) == 0
    else Paid(c, State(c, pre + win), Count(c, pre, win, ip), ip, win[k].now, Forward(win[..k+1]),
              win[|win|-1].now, Forward(win))
  }

  lemma PaidStep(c: Settings, m: Buckets, count: nat, ip: Ip, last: int, spent: nat, now: int, elapsed: nat, e: Check)
    requires Paid(c, m, count, ip, last, spent, now, elapsed)
    requires ip in m ==> Sane(c, m[ip])
    ensures var later := elapsed + Elapsed(e.now, now);
            if e.ip == ip
            then Paid(c, Next(c, m, e), count + (if Allows(c, m, e) then 1 else 0), ip, e.now, later, e.now, later)
            else Paid(c, Next(c, m, e), count, ip, last, spent, e.now, later)
  {
    var later := elapsed + Elapsed(e.now, now);
    if e.ip == ip {
      AllowanceGrows(c, spent, later);
      var gone := Elapsed(e.now, last);
      GainAdds(c, gone, later - spent - gone);
    }
  }

  lemma FirstStep(c: Settings, m: Buckets, e: Check, elapsed: nat)
    requires e.ip in m ==> Sane(c, m[e.ip])
    ensures Paid(c, Next(c, m, e), if Allows(c, m, e) then 1 else 0, e.ip, e.now, elapsed, e.now, elapsed)
  {
    AllowanceGrows(c, 0, elapsed);
    assert Gain(c, 0) == 0;
  }

  lemma ForwardStep(win: seq<Check>)
    ensures |win| <= 1 ==> Forward(win) == 0
    ensures |win| > 1 ==>
              Forward(win) == Forward(win[..|win|-1]) + Elapsed(win[|win|-1].now, win[|win|-2].now)
  {
  }

  lemma {:induction false} StaysWithin(c: Settings, pre: seq<Check>, win: seq<Check>, ip: Ip)
    ensures Within(c, pre, win, ip)
  {
    hide Paid, Next, Allows, Allowance, Elapsed, Forward;
    if win != [] {
      var before, e := win[..|win|-1], win[|win|-1];
      ForwardStep(win);
      StaysWithin(c, pre, before, ip);
      StateIsSane(c, pre + before);
      var m := State(c, pre + before);
      assert (pre + win)[..|pre + win| - 1] == pre + before;
      assert State(c, pre + win) == Next(c, m, e);
      var k := LastOf(before, ip);
      if k < |before| {
        assert before[..k+1] == win[..k+1];
        assert win[..|win|] == win;
        PaidStep(c, m, Count(c, pre, before, ip), ip, before[k].now, Forward(before[..k+1]),
                 before[|before|-1].now, Forward(before), e);
      } else if e.ip == ip {
        assert win[..|win|] == win;
        FirstStep(c, m, e, Forward(win));
      }
    }
  }

  lemma {:induction false} ForwardGrows(win: seq<Check>, k: nat)
    requires k <= |win|
    ensures Forward(win[..k]) <= Forward(win)
  {
    if k == |win| {
      assert win[..k] == win;
    } else {
      ForwardGrows(win[..|win|-1], k);
      assert win[..|win|-1][..k] == win[..k];
    }
  }

  // Any stretch of any run, from any reachable state, whatever the clock readings:
  // one burst, one more for each 600 seconds of forward clock movement, and the refill.
  lemma StretchBound(c: Settings, pre: seq<Check>, win: seq<Check>, ip: Ip)
    ensures Count(c, pre, win, ip) * TOKEN <= Allowance(c, Forward(win))
  {
    StaysWithin(c, pre, win, ip);
    StateIsSane(c, pre + win);
    var k := LastOf(win, ip);
    if k < |win| {
      ForwardGrows(win, k + 1);
      AllowanceGrows(c, Forward(win[..k+1]), Forward(win));
    }
  }

  lemma {:induction false} ForwardInOrder(win: seq<Check>)
    requires win != [] && InOrder(win)
    ensures Forward(win) == win[|win|-1].now - win[0].now
  {
    if |win| > 1 {
      ForwardInOrder(win[..|win|-1]);
    }
  }

  // The admissions of one client inside any time window of length `length` of a
  // run with nondecreasing times.
  lemma WindowBound(c: Settings, trace: seq<Check>, i: nat, j: nat, start: int, length: nat, ip: Ip)
    requires InOrder(trace) && i <= j <= |trace|
    requires forall k :: i <= k < j ==> start <= trace[k].now <= start + length
    ensures var burst: nat := if c.burstSize == 0 then 1 else c.burstSize;
            Count(c, trace[..i], trace[i..j], ip) * 60_000_000_000
            <= burst * 60_000_000_000 * (1 + length / 600_000_000_000) + c.requestsPerMinute * length
  {
    var win := trace[i..j];
    StretchBound(c, trace[..i], win, ip);
    if win != [] {
      ForwardInOrder(win);
      assert win[0] == trace[i] && win[|win|-1] == trace[j-1];
    }
    AllowanceGrows(c, Forward(win), length);
    assert Burst(c) * (1 + length / STALE) == Burst(c) + length / STALE * Burst(c);
  }

  /// A bucket that is not evicted, with clock readings in any order

  function ForwardOf(times: seq<int>): nat {
    if |times| <= 1 then 0
    else
      var last, before := times[|times|-1], times[|times|-2];
      ForwardOf(times[..|times|-1]) + (if before <= last then last - before else 0)
  }

  function BackwardOf(times: seq<int>): nat {
    if |times| <= 1 then 0
    else
      var last, before := times[|times|-1], times[|times|-2];
      BackwardOf(times[..|times|-1]) + (if last <= before then before - last else 0)
  }

  // The admissions at `win` of a bucket already checked at `pre`.
  function SoloCount(c: Settings, pre: seq<int>, win: seq<int>): nat {
    if win == [] then 0
    else
      var before, t := win[..|win|-1], win[|win|-1];
      SoloCount(c, pre, before) + (if Admits(c, Solo(c, pre + before), t) then 1 else 0)
  }

  lemma {:induction false} SoloIsSane(c: Settings, times: seq<int>)
    ensures Solo(c, times).Some? ==>
              var b := Solo(c, times).value;
              Sane(c, b) && times != [] && b.lastRefill == times[|times|-1]
  {
    if times != [] {
      SoloIsSane(c, times[..|times|-1]);
    }
  }

  lemma {:induction false} SoloPays(c: Settings, pre: seq<int>, win: seq<int>)
    requires win != []
    ensures SoloCount(c, pre, win) * TOKEN + Solo(c, pre + win).value.tokens <= Burst(c) + Gain(c, ForwardOf(win))
    ensures ForwardOf(win) == win[|win|-1] - win[0] + BackwardOf(win)
  {
    var before, t := win[..|win|-1], win[|win|-1];
    assert (pre + win)[..|pre + win| - 1] == pre + before;
    SoloIsSane(c, pre + before);
    if before != [] {
      SoloPays(c, pre, before);
      var gone := Elapsed(t, win[|win|-2]);
      GainAdds(c, ForwardOf(before), gone);
    }
  }

  // Backward steps of total `BackwardOf(win)` cost at most the refill of that much extra time.
  lemma BackstepBound(c: Settings, pre: seq<int>, win: seq<int>)
    requires win != []
    ensures SoloCount(c, pre, win) * TOKEN
            <= Burst(c) + c.requestsPerMinute * (win[|win|-1] - win[0] + BackwardOf(win))
  {
    SoloPays(c, pre, win);
    SoloIsSane(c, pre + win);
  }
}
