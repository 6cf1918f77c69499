/**
 * The click-combo detector of `onFragmentClick`: a sliding-window rate
 * detector over the timestamps (in ms) of recent clicks on any fragment.
 * Each click drops the timestamps that are no longer strictly inside the
 * 1200 ms window, appends its own, and fires the glitch once five are held,
 * emptying the list.
 */
module Combo {

  const Window: int := 1200
  const Threshold: nat := 5

  /** `clickTimes`: timestamps in arrival order. */
  datatype Tracker = Tracker(times: seq<int>)

  /** The tracker after a click, and whether the click fired the glitch. */
  datatype Outcome = Outcome(tracker: Tracker, fired: bool)

  /** A fresh session: no clicks recorded. */
  const Idle: Tracker := Tracker([])

  /** A click at `t` still counts at time `now`; the age comparison is strict. */
  predicate Fresh(t: int, now: int)
  {
    now - t < Window
  }

  /** `clickTimes.filter(t => now - t < 1200)`: only timestamps inside the window survive. */
  function Recent(times: seq<int>, now: int): (r: seq<int>)
    ensures |r| <= |times|
    ensures forall i :: 0 <= i < |r| ==> Fresh(r[i], now)
  {
    if |times| == 0 then []
    else if Fresh(times[0], now) then [times[0]] + Recent(times[1..], now)
    else Recent(times[1..], now)
  }

  /** The filter keeps exactly the timestamps inside the window. */
  lemma {:induction false} RecentMembers(times: seq<int>, now: int, t: int)
    ensures t in Recent(times, now) <==> t in times && Fresh(t, now)
  {
    if |times| > 0 {
      RecentMembers(times[1..], now, t);
      assert times == [times[0]] + times[1..];
    }
  }

  /** When every timestamp is inside the window nothing is evicted. */
  lemma {:induction false} RecentAllFresh(times: seq<int>, now: int)
    requires forall i :: 0 <= i < |times| ==> Fresh(times[i], now)
    ensures Recent(times, now) == times
  {
    if |times| > 0 {
      RecentAllFresh(times[1..], now);
    }
  }

  /** When no timestamp is inside the window everything is evicted. */
  lemma {:induction false} RecentAllStale(times: seq<int>, now: int)
    requires forall i :: 0 <= i < |times| ==> !Fresh(times[i], now)
    ensures Recent(times, now) == []
  {
    if |times| > 0 {
      RecentAllStale(times[1..], now);
    }
  }

  /** The number of recorded clicks inside the window at `now`, counted by position. */
  ghost function WindowCount(times: seq<int>, now: int): nat
  {
    |set i | 0 <= i < |times| && Fresh(times[i], now)|
  }

  /** Filtering an extended list extends the filtered list. */
  lemma {:induction false} RecentSnoc(times: seq<int>, t: int, now: int)
    ensures Recent(times + [t], now) == Recent(times, now) + (if Fresh(t, now) then [t] else [])
  {
    if |times| > 0 {
      assert (times + [t])[1..] == times[1..] + [t];
      RecentSnoc(times[1..], t, now);
    }
  }

  /** The filter keeps exactly as many timestamps as the window holds. */
  lemma {:induction false} RecentCountsWindow(times: seq<int>, now: int)
    ensures |Recent(times, now)| == WindowCount(times, now)
  {
    if |times| > 0 {
      var n := |times|;
      var init, last := times[..n - 1], times[n - 1];
      assert times == init + [last];
      RecentSnoc(init, last, now);
      RecentCountsWindow(init, now);
      var before := set i | 0 <= i < |init| && Fresh(init[i], now);
      var after := set i | 0 <= i < |times| && Fresh(times[i], now);
      assert WindowCount(init, now) == |before|;
      assert WindowCount(times, now) == |after|;
      WindowSnoc(before, after, n - 1, Fresh(last, now)) by {
        forall i | 0 <= i < n - 1 ensures times[i] == init[i] { }
      }
    }
  }

  /** Adding one position to a window either adds one index or none. */
  lemma WindowSnoc(before: set<int>, after: set<int>, k: int, isFresh: bool)
    requires forall i :: i in before ==> i < k
    requires forall i :: i in after <==> i in before || (isFresh && i == k)
    ensures |after| == |before| + (if isFresh then 1 else 0)
  {
    if isFresh {
      assert k !in before;
      forall i ensures i in after <==> i in before + {k} { }
      assert after == before + {k};
    } else {
      forall i ensures i in after <==> i in before { }
      assert after == before;
    }
  }

  /**
   * The combo part of `onFragmentClick` at time `now`. At most four
   * timestamps survive any click, all of them inside the window, and a click
   * that fires leaves the list empty.
   */
  function Click(s: Tracker, now: int): (o: Outcome)
    ensures |o.tracker.times| < Threshold
    ensures forall i :: 0 <= i < |o.tracker.times| ==> Fresh(o.tracker.times[i], now)
    ensures o.fired ==> o.tracker.times == []
  {
    var kept := Recent(s.times, now) + [now];
    if |kept| >= Threshold then Outcome(Idle, true) else Outcome(Tracker(kept), false)
  }

  /**
   * A click fires exactly when, counting itself, five clicks fall inside the
   * window; otherwise the list becomes the clicks inside the window followed
   * by this one.
   */
  lemma ClickFiresOnFifth(s: Tracker, now: int)
    ensures Click(s, now).fired <==> WindowCount(s.times, now) + 1 >= Threshold
    ensures !Click(s, now).fired ==> |Click(s, now).tracker.times| == WindowCount(s.times, now) + 1
    ensures !Click(s, now).fired ==> Click(s, now).tracker.times[|Click(s, now).tracker.times| - 1] == now
  {
    RecentCountsWindow(s.times, now);
  }

  /** Apart from the new click, the list after a non-firing click holds exactly the earlier clicks still inside the window. */
  lemma ClickRetains(s: Tracker, now: int, t: int)
    requires !Click(s, now).fired
    ensures t in Click(s, now).tracker.times <==> t == now || (t in s.times && Fresh(t, now))
  {
    RecentMembers(s.times, now, t);
  }

  /** The trace of a sequence of clicks: the final tracker and, per click, whether it fired. */
  datatype Run = Run(tracker: Tracker, fired: seq<bool>)

  function Clicks(s: Tracker, ts: seq<int>): (r: Run)
    ensures |r.fired| == |ts|
    decreases |ts|
  {
    if |ts| == 0 then Run(s, [])
    else
      var o := Click(s, ts[0]);
      var rest := Clicks(o.tracker, ts[1..]);
      Run(rest.tracker, [o.fired] + rest.fired)
  }

  /** No recorded click is inside the window at `now`: the burst starts from a clean slate. */
  predicate Stale(s: Tracker, now: int)
  {
    forall t :: t in s.times ==> !Fresh(t, now)
  }

  /** A click whose predecessors are all inside the window keeps them all, in order, and adds itself. */
  lemma ClickKeepsFresh(xs: seq<int>, now: int)
    requires forall i :: 0 <= i < |xs| ==> Fresh(xs[i], now)
    ensures |xs| + 1 < Threshold ==> Click(Tracker(xs), now) == Outcome(Tracker(xs + [now]), false)
    ensures |xs| + 1 >= Threshold ==> Click(Tracker(xs), now) == Outcome(Idle, true)
  {
    RecentAllFresh(xs, now);
  }

  /** A click after a stale history starts a new list holding only itself. */
  lemma ClickAfterStale(s: Tracker, now: int)
    requires Stale(s, now)
    ensures Click(s, now) == Outcome(Tracker([now]), false)
  {
    forall i | 0 <= i < |s.times| ensures !Fresh(s.times[i], now) {
      assert s.times[i] in s.times;
    }
    RecentAllStale(s.times, now);
  }

  /** One click, then the rest of the run from the tracker it leaves. */
  lemma ClicksCons(s: Tracker, t: int, ts: seq<int>)
    ensures Clicks(s, [t] + ts).fired == [Click(s, t).fired] + Clicks(Click(s, t).tracker, ts).fired
    ensures Clicks(s, [t] + ts).tracker == Clicks(Click(s, t).tracker, ts).tracker
  {
    assert ([t] + ts)[1..] == ts;
  }

  /** A run over `a + b` is the run over `a` continued by the run over `b`. */
  lemma {:induction false} ClicksAppend(s: Tracker, a: seq<int>, b: seq<int>)
    ensures Clicks(s, a + b).fired == Clicks(s, a).fired + Clicks(Clicks(s, a).tracker, b).fired
    ensures Clicks(s, a + b).tracker == Clicks(Clicks(s, a).tracker, b).tracker
    decreases |a|
  {
    if |a| > 0 {
      var o := Click(s, a[0]);
      assert (a + b)[1..] == a[1..] + b;
      ClicksAppend(o.tracker, a[1..], b);
    } else {
      assert a + b == b;
    }
  }

  /** Timestamps in time order, the last less than one window after the first. */
  predicate Burst(ws: seq<int>)
  {
    && (forall i, j :: 0 <= i <= j < |ws| ==> ws[i] <= ws[j])
    && (|ws| > 0 ==> ws[|ws| - 1] - ws[0] < Window)
  }

  /** Inside a burst, every earlier click is still inside the window when a later one arrives. */
  lemma BurstHeadFresh(xs: seq<int>, ts: seq<int>)
    requires Burst(xs + ts) && |ts| > 0
    ensures forall i :: 0 <= i < |xs| ==> Fresh(xs[i], ts[0])
  {
    var all := xs + ts;
    assert all[|xs|] == ts[0];
    forall i | 0 <= i < |xs| ensures Fresh(xs[i], ts[0]) {
      assert all[i] == xs[i];
      assert all[0] <= all[i] <= all[|xs|] <= all[|all| - 1];
    }
  }

  /** The firing pattern of clicks that bring a list of `k` recent clicks up one by one, `n` times. */
  function FiredPattern(k: nat, n: nat): (r: seq<bool>)
    ensures |r| == n
    decreases n
  {
    if n == 0 then [] else [k + 1 == Threshold] + FiredPattern(k + 1, n - 1)
  }

  /** Moving the first click of a burst onto the list keeps the same burst. */
  lemma BurstShift(xs: seq<int>, ts: seq<int>)
    requires |ts| > 0
    ensures (xs + [ts[0]]) + ts[1..] == xs + ts
  {
  }

  /**
   * A burst of clicks continuing a list that already holds the burst's
   * first clicks: the click that brings the count to five fires, none
   * before it does, and until then the list is exactly the clicks so far.
   */
  lemma {:induction false} BurstRun(xs: seq<int>, ts: seq<int>)
    requires Burst(xs + ts) && |xs| + |ts| <= Threshold
    ensures Clicks(Tracker(xs), ts).fired == FiredPattern(|xs|, |ts|)
    ensures |xs| + |ts| < Threshold ==> Clicks(Tracker(xs), ts).tracker == Tracker(xs + ts)
    ensures |xs| + |ts| == Threshold && |ts| > 0 ==> Clicks(Tracker(xs), ts).tracker == Idle
    decreases |ts|
  {
    if |ts| == 0 {
      assert xs + ts == xs;
    } else {
      var t := ts[0];
      BurstHeadFresh(xs, ts);
      ClickKeepsFresh(xs, t);
      ClicksCons(Tracker(xs), t, ts[1..]);
      assert [t] + ts[1..] == ts;
      if |xs| + 1 < Threshold {
        BurstShift(xs, ts);
        BurstRun(xs + [t], ts[1..]);
      }
    }
  }

  /**
   * Five clicks in time order spanning less than the window, after a stale
   * history, fire exactly once: at the fifth click, which also empties the
   * list.
   */
  lemma FiveQuickClicksFireOnce(s: Tracker, ts: seq<int>)
    requires |ts| == Threshold && Burst(ts)
    requires Stale(s, ts[0])
    ensures Clicks(s, ts).fired == [false, false, false, false, true]
    ensures Clicks(s, ts).tracker == Idle
  {
    ClickAfterStale(s, ts[0]);
    ClicksCons(s, ts[0], ts[1..]);
    assert [ts[0]] + ts[1..] == ts;
    BurstRun([ts[0]], ts[1..]);
    assert FiredPattern(4, 1) == [true];
    assert FiredPattern(1, 4) == [false, false, false, true];
  }

  /**
   * Four clicks in time order spanning less than the window, after a stale
   * history, then a fifth at least 1200 ms after the first: no click fires,
   * since the first has left the window by the fifth.
   */
  lemma FourThenLateDoesNotFire(s: Tracker, ts: seq<int>)
    requires |ts| == Threshold && Burst(ts[..4]) && ts[3] <= ts[4] && ts[4] - ts[0] >= Window
    requires Stale(s, ts[0])
    ensures Clicks(s, ts).fired == [false, false, false, false, false]
  {
    var first := ts[..4];
    ClickAfterStale(s, ts[0]);
    ClicksCons(s, ts[0], first[1..]);
    assert [ts[0]] + first[1..] == first;
    BurstRun([ts[0]], first[1..]);
    assert FiredPattern(3, 1) == [false];
    assert FiredPattern(1, 3) == [false, false, false];
    ClicksAppend(s, first, [ts[4]]);
    assert first + [ts[4]] == ts;
    assert !Click(Tracker(first), ts[4]).fired by {
      assert Recent(first, ts[4]) == Recent(first[1..], ts[4]);
    }
    ClicksCons(Tracker(first), ts[4], []);
    assert [ts[4]] + [] == [ts[4]];
  }

  /**
   * The window is strict: four clicks at `t` and a fifth 1199 ms later fire,
   * but a fifth exactly 1200 ms later finds all four evicted.
   */
  lemma WindowBoundaryIsStrict(t: int)
    ensures Click(Tracker([t, t, t, t]), t + Window - 1).fired
    ensures Click(Tracker([t, t, t, t]), t + Window) == Outcome(Tracker([t + Window]), false)
  {
    ClickKeepsFresh([t, t, t, t], t + Window - 1);
    ClickAfterStale(Tracker([t, t, t, t]), t + Window);
  }
}
