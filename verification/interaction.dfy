/**
 * `onFragmentClick` as a whole, minus its DOM and media plumbing: every
 * click spawns a thought, then feeds the combo detector, and a click that
 * fires the combo triggers the glitch. Draws are taken in the script's order:
 * the thought text first, then (only when the combo fires) the punch line.
 */
module Interaction {
  import opened Random
  import Combo
  import opened Glitch

  /** The session state: the combo detector's timestamps and the scene the timers act on. */
  datatype Session = Session(tracker: Combo.Tracker, scene: Scene)

  /** A fresh page: no clicks recorded, nothing shown, nothing pending. */
  const Start: Session := Session(Combo.Idle, Calm)

  /** How many glitch reverts are pending: one per glitch session still showing or not yet reverted. */
  function Reverts(tasks: seq<Task>): nat
  {
    if |tasks| == 0 then 0
    else Reverts(tasks[..|tasks| - 1]) + (if tasks[|tasks| - 1].Revert? then 1 else 0)
  }

  /** How many clicks of a run fired the glitch. */
  function Fired(bs: seq<bool>): nat
  {
    if |bs| == 0 then 0 else (if bs[0] then 1 else 0) + Fired(bs[1..])
  }

  /** `onFragmentClick(frag)` at time `now`, drawing from `g`. */
  function OnFragmentClick(s: Session, now: int, g: Rng): (r: (Session, Rng))
    ensures r.0.tracker == Combo.Click(s.tracker, now).tracker
    ensures r.1.draw == g.draw && r.1.pos == g.pos + (if Combo.Click(s.tracker, now).fired then 2 else 1)
    ensures |r.0.scene.thoughts| == |s.scene.thoughts| + 1
    ensures r.0.scene.thoughts[..|s.scene.thoughts|] == s.scene.thoughts
    ensures r.0.scene.thoughts[|s.scene.thoughts|].id == s.scene.nextId
    ensures r.0.scene.thoughts[|s.scene.thoughts|].text in Thoughts
    ensures r.0.scene.nextId == s.scene.nextId + 1
    ensures Expire(now + ThoughtLifetime, s.scene.nextId) in r.0.scene.tasks
    ensures Combo.Click(s.tracker, now).fired ==> Revert(now + GlitchDuration) in r.0.scene.tasks
    ensures Combo.Click(s.tracker, now).fired ==>
      r.0.scene.tasks == s.scene.tasks + [Expire(now + ThoughtLifetime, s.scene.nextId), Revert(now + GlitchDuration)]
    ensures !Combo.Click(s.tracker, now).fired ==>
      r.0.scene.tasks == s.scene.tasks + [Expire(now + ThoughtLifetime, s.scene.nextId)]
    ensures Combo.Click(s.tracker, now).fired ==>
      r.0.scene.glitch && r.0.scene.punchVisible && r.0.scene.punchText in PunchLines
    ensures !Combo.Click(s.tracker, now).fired ==>
      r.0.scene.glitch == s.scene.glitch && r.0.scene.punchVisible == s.scene.punchVisible &&
      r.0.scene.punchText == s.scene.punchText
    ensures Reverts(r.0.scene.tasks) == Reverts(s.scene.tasks) + (if Combo.Click(s.tracker, now).fired then 1 else 0)
    ensures WellFormed(s.scene) ==> WellFormed(r.0.scene)
  {
    var (uThought, g1) := Next(g);
    var scene1 := SpawnThought(s.scene, now, uThought);
    assert Reverts(scene1.tasks) == Reverts(s.scene.tasks);
    var o := Combo.Click(s.tracker, now);
    if o.fired then
      var (uPunch, g2) := Next(g1);
      var scene2 := TriggerGlitch(scene1, now, uPunch);
      assert Reverts(scene2.tasks) == Reverts(scene1.tasks) + 1;
      (Session(o.tracker, scene2), g2)
    else
      (Session(o.tracker, scene1), g1)
  }

  /** The thought a click spawns at `now` is gone once time reaches `now + 1800`. */
  lemma ClickThoughtGoneAfterExpiry(s: Session, now: int, g: Rng, t: int)
    requires t >= now + ThoughtLifetime
    ensures var sc := AdvanceTo(OnFragmentClick(s, now, g).0.scene, t);
      forall j :: 0 <= j < |sc.thoughts| ==> sc.thoughts[j].id != s.scene.nextId
  {
    var sc := OnFragmentClick(s, now, g).0.scene;
    assert sc.tasks[|s.scene.tasks|] == Expire(now + ThoughtLifetime, s.scene.nextId);
    AdvancePastExpire(sc, t, |s.scene.tasks|);
  }

  /** A click that fires the combo at `now` has its glitch reverted once time reaches `now + 1300`. */
  lemma ClickGlitchRevertedAfter(s: Session, now: int, g: Rng, t: int)
    requires Combo.Click(s.tracker, now).fired && t >= now + GlitchDuration
    ensures !AdvanceTo(OnFragmentClick(s, now, g).0.scene, t).glitch
    ensures !AdvanceTo(OnFragmentClick(s, now, g).0.scene, t).punchVisible
  {
    var sc := OnFragmentClick(s, now, g).0.scene;
    assert sc.tasks[|s.scene.tasks| + 1] == Revert(now + GlitchDuration);
    AdvancePastRevert(sc, t, |s.scene.tasks| + 1);
  }

  /** A sequence of clicks at the given times, with no timer coming due in between. */
  function Clicks(s: Session, ts: seq<int>, g: Rng): (r: (Session, Rng))
    decreases |ts|
  {
    if |ts| == 0 then (s, g)
    else
      var (s1, g1) := OnFragmentClick(s, ts[0], g);
      Clicks(s1, ts[1..], g1)
  }

  /** The first click of a run, then the rest from where it leaves the session. */
  lemma ClicksCons(s: Session, ts: seq<int>, g: Rng)
    requires |ts| > 0
    ensures Clicks(s, ts, g) == Clicks(OnFragmentClick(s, ts[0], g).0, ts[1..], OnFragmentClick(s, ts[0], g).1)
  {
  }

  /** The firing count of a combo run: the first click's contribution plus the rest's. */
  lemma FiredCons(tr: Combo.Tracker, ts: seq<int>)
    requires |ts| > 0
    ensures Fired(Combo.Clicks(tr, ts).fired) ==
      (if Combo.Click(tr, ts[0]).fired then 1 else 0) + Fired(Combo.Clicks(Combo.Click(tr, ts[0]).tracker, ts[1..]).fired)
    ensures Combo.Clicks(tr, ts).tracker == Combo.Clicks(Combo.Click(tr, ts[0]).tracker, ts[1..]).tracker
  {
    var o := Combo.Click(tr, ts[0]);
    var rest := Combo.Clicks(o.tracker, ts[1..]).fired;
    Combo.ClicksCons(tr, ts[0], ts[1..]);
    assert [ts[0]] + ts[1..] == ts;
    assert ([o.fired] + rest)[1..] == rest;
  }

  /**
   * A run of clicks with no timer coming due during the run follows the
   * combo detector's run: same final timestamps, one pending revert per
   * firing click, one thought per click, and the glitch showing once any
   * click has fired.
   */
  lemma {:induction false} ClicksFollowCombo(s: Session, ts: seq<int>, g: Rng)
    ensures Clicks(s, ts, g).0.tracker == Combo.Clicks(s.tracker, ts).tracker
    ensures Reverts(Clicks(s, ts, g).0.scene.tasks) == Reverts(s.scene.tasks) + Fired(Combo.Clicks(s.tracker, ts).fired)
    ensures |Clicks(s, ts, g).0.scene.thoughts| == |s.scene.thoughts| + |ts|
    ensures Fired(Combo.Clicks(s.tracker, ts).fired) > 0 ==>
      var sc := Clicks(s, ts, g).0.scene; sc.glitch && sc.punchVisible && sc.punchText in PunchLines
    ensures Fired(Combo.Clicks(s.tracker, ts).fired) == 0 ==>
      var sc := Clicks(s, ts, g).0.scene;
      sc.glitch == s.scene.glitch && sc.punchVisible == s.scene.punchVisible && sc.punchText == s.scene.punchText
    decreases |ts|
  {
    if |ts| > 0 {
      var step := OnFragmentClick(s, ts[0], g);
      ClicksCons(s, ts, g);
      FiredCons(s.tracker, ts);
      ClicksFollowCombo(step.0, ts[1..], step.1);
    }
  }

  /**
   * Five clicks in time order within less than 1200 ms on a fresh page start
   * exactly one glitch session: the glitch flag is set, a line of
   * `PUNCH_LINES` is shown, exactly one revert is pending, and each click
   * spawned a thought.
   */
  lemma FiveQuickClicksStartOneGlitch(ts: seq<int>, g: Rng)
    requires |ts| == Combo.Threshold && Combo.Burst(ts)
    ensures var sc := Clicks(Start, ts, g).0.scene;
      sc.glitch && sc.punchVisible && sc.punchText in PunchLines &&
      Reverts(sc.tasks) == 1 && |sc.thoughts| == 5
    ensures Clicks(Start, ts, g).0.tracker == Combo.Idle
  {
    Combo.FiveQuickClicksFireOnce(Start.tracker, ts);
    ClicksFollowCombo(Start, ts, g);
    assert Fired([false, false, false, false, true]) == 1;
  }

  /**
   * Four quick clicks on a fresh page, then a fifth at least 1200 ms after
   * the first: no glitch starts and no revert is armed.
   */
  lemma FourThenLateStartsNoGlitch(ts: seq<int>, g: Rng)
    requires |ts| == Combo.Threshold && Combo.Burst(ts[..4]) && ts[3] <= ts[4] && ts[4] - ts[0] >= Combo.Window
    ensures !Clicks(Start, ts, g).0.scene.glitch
    ensures Reverts(Clicks(Start, ts, g).0.scene.tasks) == 0
  {
    Combo.FourThenLateDoesNotFire(Start.tracker, ts);
    ClicksFollowCombo(Start, ts, g);
    assert Fired([false, false, false, false, false]) == 0;
  }
}
