/**
 Clock readings in any order: the bucket counts exactly their forward steps.
 */
module RateOrder {
  import opened RateLimit
  import opened RateHistory
  import opened RateWindow

  // Each reading replaced by the forward steps up to it.
  function Clocked(times: seq<int>): seq<int> {
    if times == [] then [] else Clocked(times[..|times|-1]) + [ForwardOf(times)]
  }

  lemma {:induction false} ClockedGrows(times: seq<int>)
    ensures |Clocked(times)| == |times| && Nondecreasing(Clocked(times))
    ensures times != [] ==> Clocked(times)[|times|-1] == ForwardOf(times)
  {
    if times != [] {
      var before := times[..|times|-1];
      ClockedGrows(before);
      assert forall i :: 0 <= i < |before| ==> Clocked(times)[i] == Clocked(before)[i];
      if before != [] {
        assert forall i :: 0 <= i < |before| ==> Clocked(before)[i] <= Clocked(before)[|before|-1];
      }
    }
  }

  lemma ClockedSnoc(times: seq<int>, t: int)
    ensures Clocked(times + [t]) == Clocked(times) + [ForwardOf(times + [t])]
    ensures times != [] ==>
              ForwardOf(times + [t]) == ForwardOf(times) + if times[|times|-1] <= t then t - times[|times|-1] else 0
    ensures times == [] ==> ForwardOf(times + [t]) == 0
  {
    assert (times + [t])[..|times|] == times;
  }

  // What the bucket is topped up to depends on the forward steps only.
  lemma {:induction false} TopUpIsClocked(c: Settings, times: seq<int>, t: int)
    ensures Refilled(c, Solo(c, times), t) == Refilled(c, Solo(c, Clocked(times)), ForwardOf(times + [t]))
  {
    ClockedSnoc(times, t);
    if times != [] {
      var before, u := times[..|times|-1], times[|times|-1];
      assert times == before + [u];
      TopUpIsClocked(c, before, u);
      ClockedSnoc(before, u);
      ClockedGrows(times);
      var clocks := Clocked(times);
      assert clocks[..|clocks|-1] == Clocked(before) && clocks[|clocks|-1] == ForwardOf(times);
    }
  }

  // With readings in any order, a surviving bucket admits exactly when no suffix of its
  // admissions would be overdrawn, each dated by the forward steps up to it.
  lemma AnyOrderIsExact(c: Settings, times: seq<int>, t: int)
    ensures Admits(c, Solo(c, times), t) <==>
            FitsEverySuffix(c, Admitted(c, Clocked(times)), ForwardOf(times + [t]))
  {
    hide Solo, Refilled, FitsEverySuffix, Admitted, ForwardOf, Clocked;
    TopUpIsClocked(c, times, t);
    ClockedGrows(times);
    ClockedSnoc(times, t);
    BucketIsExact(c, Clocked(times), ForwardOf(times + [t]));
  }

  // The same for the shared limiter, over any run of any clients with readings in any order.
  lemma LimiterIsExactInAnyOrder(c: Settings, trace: seq<Check>, e: Check)
    ensures var life := LifeAt(c, trace, e.ip, e.now);
            Allows(c, State(c, trace), e) <==>
              FitsEverySuffix(c, Admitted(c, Clocked(life)), ForwardOf(life + [e.now]))
  {
    hide FitsEverySuffix, Admitted, ForwardOf, Clocked, Admits;
    StateIsSolo(c, trace, e.ip);
    AnyOrderIsExact(c, LifeAt(c, trace, e.ip, e.now), e.now);
  }
}
