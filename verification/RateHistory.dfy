/**
 The constant-size bucket is an exact summary of its whole admission history.
 */
module RateHistory {
  import opened Addresses
  import opened RateLimit

  // What the history `adm` leaves available at `t`: the least, over every suffix
  // of the history, of a full burst plus what was gained since that suffix began
  // less one token for each admission in it.
  function Headroom(c: Settings, adm: seq<int>, t: int): int {
    if adm == [] then Burst(c)
    else Min(Burst(c) + c.requestsPerMinute * (t - adm[0]) - |adm| * TOKEN, Headroom(c, adm[1..], t))
  }

  // For each admission, the admissions from it on, with one more, fit the burst, which is
  // at least one, and a sixtieth of the rate for each second since it.
  predicate FitsEverySuffix(c: Settings, adm: seq<int>, t: int) {
    var burst: nat := if c.burstSize == 0 then 1 else c.burstSize;
    forall j :: 0 <= j < |adm| ==>
      (|adm| - j + 1) * 60_000_000_000 <= burst * 60_000_000_000 + c.requestsPerMinute * (t - adm[j])
  }

  lemma {:induction false} HeadroomIsLeast(c: Settings, adm: seq<int>, t: int, x: int)
    ensures Headroom(c, adm, t) >= x <==>
            && Burst(c) >= x
            && forall j :: 0 <= j < |adm| ==>
                 Burst(c) + c.requestsPerMinute * (t - adm[j]) - (|adm| - j) * TOKEN >= x
  {
    if adm != [] {
      var rest := adm[1..];
      HeadroomIsLeast(c, rest, t, x);
      assert forall j :: 0 < j < |adm| ==> adm[j] == rest[j-1];
      assert forall j :: 0 <= j < |rest| ==> rest[j] == adm[j+1];
    }
  }

  lemma Distribute(r: int, t: int, u: int, a: int)
    ensures r * (t - a) == r * (u - a) + r * (t - u)
  {
  }

  // Letting time pass from `u` to `t` adds the gain and caps at a burst.
  lemma {:induction false} HeadroomLater(c: Settings, adm: seq<int>, u: int, t: int)
    requires u <= t
    ensures Headroom(c, adm, t) == Min(Burst(c), Headroom(c, adm, u) + Gain(c, t - u))
  {
    if adm != [] {
      HeadroomLater(c, adm[1..], u, t);
      Distribute(c.requestsPerMinute, t, u, adm[0]);
    }
  }

  // Admitting at `u` costs one token.
  lemma {:induction false} HeadroomAdmit(c: Settings, adm: seq<int>, u: int, t: int)
    requires u <= t
    ensures Headroom(c, adm + [u], t) == Min(Burst(c), Headroom(c, adm, u) - TOKEN + Gain(c, t - u))
  {
    var longer := adm + [u];
    if adm == [] {
      assert longer[1..] == [];
    } else {
      HeadroomAdmit(c, adm[1..], u, t);
      Distribute(c.requestsPerMinute, t, u, adm[0]);
      assert longer[1..] == adm[1..] + [u];
    }
  }

  // The topped-up tokens of a surviving bucket are exactly what its admission history leaves.
  lemma {:induction false} TokensAreHeadroom(c: Settings, times: seq<int>, t: int)
    requires Nondecreasing(times)
    requires times != [] ==> times[|times|-1] <= t
    ensures Refilled(c, Solo(c, times), t) == Headroom(c, Admitted(c, times), t)
  {
    if times != [] {
      var before, u := times[..|times|-1], times[|times|-1];
      TokensAreHeadroom(c, before, u);
      if Admits(c, Solo(c, before), u) {
        HeadroomAdmit(c, Admitted(c, before), u, t);
      } else {
        HeadroomLater(c, Admitted(c, before), u, t);
        assert Admitted(c, times) == Admitted(c, before);
      }
    }
  }

  // A surviving bucket admits exactly when no suffix of its history would be overdrawn.
  lemma BucketIsExact(c: Settings, times: seq<int>, t: int)
    requires Nondecreasing(times)
    requires times != [] ==> times[|times|-1] <= t
    ensures Admits(c, Solo(c, times), t) <==> FitsEverySuffix(c, Admitted(c, times), t)
  {
    hide Headroom, Admitted, Solo, FitsEverySuffix;
    TokensAreHeadroom(c, times, t);
    FitsIsHeadroom(c, Admitted(c, times), t);
  }

  lemma FitsIsHeadroom(c: Settings, adm: seq<int>, t: int)
    ensures FitsEverySuffix(c, adm, t) <==> Headroom(c, adm, t) >= TOKEN
  {
    hide Headroom, Burst;
    HeadroomIsLeast(c, adm, t, TOKEN);
    BurstIsAtLeastOne(c);
    forall j | 0 <= j < |adm|
      ensures (|adm| - j + 1) * TOKEN <= Burst(c) + c.requestsPerMinute * (t - adm[j]) <==>
              Burst(c) + c.requestsPerMinute * (t - adm[j]) - (|adm| - j) * TOKEN >= TOKEN
    {
      OneMore(Burst(c) + c.requestsPerMinute * (t - adm[j]), |adm| - j);
    }
  }

  lemma BurstIsAtLeastOne(c: Settings)
    ensures Burst(c) == (if c.burstSize == 0 then 1 else c.burstSize) * 60_000_000_000 >= TOKEN
  {
  }

  lemma OneMore(room: int, n: int)
    ensures (n + 1) * TOKEN <= room <==> room - n * TOKEN >= TOKEN
  {
  }

  /// The same at the level of the shared limiter, with evictions

  // The times of the checks of `ip` counted by its present bucket: a bucket's
  // life starts over when the bucket is evicted.
  function Life(c: Settings, trace: seq<Check>, ip: Ip): seq<int>
    decreases |trace|, 0
  {
    if trace == [] then []
    else
      var before := trace[..|trace|-1];
      var e := trace[|trace|-1];
      LifeAt(c, before, ip, e.now) + (if e.ip == ip then [e.now] else [])
  }

  // The part of that life still standing after the eviction pass made at `now`.
  function LifeAt(c: Settings, trace: seq<Check>, ip: Ip, now: int): seq<int>
    decreases |trace|, 1
  {
    if ip in Kept(State(c, trace), now) then Life(c, trace, ip) else []
  }

  lemma {:induction false} StateIsSolo(c: Settings, trace: seq<Check>, ip: Ip)
    ensures Lookup(State(c, trace), ip) == Solo(c, Life(c, trace, ip))
  {
    if trace != [] {
      var before := trace[..|trace|-1];
      var e := trace[|trace|-1];
      StateIsSolo(c, before, ip);
      var kept := Kept(State(c, before), e.now);
      var l := LifeAt(c, before, ip, e.now);
      assert Lookup(kept, ip) == Solo(c, l);
      if e.ip == ip {
        assert (l + [e.now])[..|l|] == l;
      } else {
        assert l + [] == l;
      }
    }
  }

  lemma {:induction false} LifeIsInOrder(c: Settings, trace: seq<Check>, ip: Ip)
    requires InOrder(trace)
    ensures Nondecreasing(Life(c, trace, ip))
    ensures forall t :: t in Life(c, trace, ip) ==> trace != [] && t <= trace[|trace|-1].now
  {
    if trace != [] {
      var before := trace[..|trace|-1];
      var e := trace[|trace|-1];
      LifeIsInOrder(c, before, ip);
      var l := LifeAt(c, before, ip, e.now);
      assert forall k :: 0 <= k < |l| ==> l[k] <= e.now by {
        if l != [] {
          assert forall k :: 0 <= k < |l| ==> l[k] in Life(c, before, ip);
        }
      }
    }
  }

  // After any nondecreasing run over any clients, the next check is answered by
  // the admission history of the client's present bucket alone, and the bucket's
  // tokens are that history's closed form.
  lemma LimiterIsExact(c: Settings, trace: seq<Check>, e: Check)
    requires InOrder(trace + [e])
    ensures var adm := Admitted(c, LifeAt(c, trace, e.ip, e.now));
            var m := State(c, trace);
            && (Allows(c, m, e) <==> FitsEverySuffix(c, adm, e.now))
            && Refilled(c, Lookup(Kept(m, e.now), e.ip), e.now) == Headroom(c, adm, e.now)
  {
    assert (trace + [e])[..|trace|] == trace;
    StateIsSolo(c, trace, e.ip);
    LifeIsInOrder(c, trace, e.ip);
    var l := LifeAt(c, trace, e.ip, e.now);
    if trace != [] {
      assert (trace + [e])[|trace|-1].now <= (trace + [e])[|trace|].now;
    }
    assert l != [] ==> l[|l|-1] in l;
    assert Lookup(Kept(State(c, trace), e.now), e.ip) == Solo(c, l);
    BucketIsExact(c, l, e.now);
    TokensAreHeadroom(c, l, e.now);
  }
}
