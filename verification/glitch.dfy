/**
 * The timed parts of script.js: `triggerGlitch` (glitch flag and punch line,
 * reverted by a 1300 ms timer) and `spawnThought` (a floating thought removed
 * by an 1800 ms timer). Timers are pending tasks with a due time; time only
 * moves when `AdvanceTo` runs the tasks that have come due, earliest first.
 * Nothing guards against a second glitch while one is showing: each trigger
 * arms its own revert, and whichever revert comes due first clears the flag.
 */
module Glitch {
  import opened Random

  const GlitchDuration: int := 1300
  const ThoughtLifetime: int := 1800

  /** `THOUGHTS`. */
  const Thoughts: seq<string> := [
    "I learned to live with it.",
    "이제는 괜찮다고 말할 수 있어.",
    "Some things softened.",
    "조금은 내려놓았어.",
    "I stayed quiet and breathed."
  ]

  /** `PUNCH_LINES`. */
  const PunchLines: seq<string> := [
    "THIS STILL HURTS",
    "DON’T LIE",
    "I WAS BREAKING",
    "I STILL FEEL IT"
  ]

  /** A floating thought element; `id` tells apart thoughts with the same text. */
  datatype Thought = Thought(id: nat, text: string)

  /** A pending `setTimeout` callback: the glitch revert, or the removal of one thought. */
  datatype Task = Revert(due: int) | Expire(due: int, id: nat)

  /**
   * What the timers act on: the `glitch` class on the body, whether the punch
   * element is shown (neither `hidden` nor without `glitchText`), its text, the
   * thoughts on screen, the pending timers, and the next thought id.
   */
  datatype Scene = Scene(glitch: bool, punchVisible: bool, punchText: string,
                         thoughts: seq<Thought>, tasks: seq<Task>, nextId: nat)

  /** The scene when the experience starts. */
  const Calm: Scene := Scene(false, false, "", [], [], 0)

  /** Every thought and every pending removal refers to an id already handed out. */
  predicate WellFormed(s: Scene)
  {
    && (forall j :: 0 <= j < |s.thoughts| ==> s.thoughts[j].id < s.nextId)
    && (forall i :: 0 <= i < |s.tasks| ==> s.tasks[i].Expire? ==> s.tasks[i].id < s.nextId)
  }

  /** `triggerGlitch()` at time `now`, picking the punch line with draw `u`. */
  function TriggerGlitch(s: Scene, now: int, u: Draw): (r: Scene)
    ensures r.glitch && r.punchVisible && r.punchText in PunchLines
    ensures r.thoughts == s.thoughts && r.nextId == s.nextId
    ensures r.tasks == s.tasks + [Revert(now + GlitchDuration)]
    ensures WellFormed(s) ==> WellFormed(r)
  {
    Scene(true, true, Pick(PunchLines, u).value, s.thoughts, s.tasks + [Revert(now + GlitchDuration)], s.nextId)
  }

  /** `spawnThought(frag)` at time `now`, picking the text with draw `u`. */
  function SpawnThought(s: Scene, now: int, u: Draw): (r: Scene)
    ensures r.glitch == s.glitch && r.punchVisible == s.punchVisible && r.punchText == s.punchText
    ensures |r.thoughts| == |s.thoughts| + 1 && r.thoughts[..|s.thoughts|] == s.thoughts
    ensures r.thoughts[|s.thoughts|].id == s.nextId && r.thoughts[|s.thoughts|].text in Thoughts
    ensures r.tasks == s.tasks + [Expire(now + ThoughtLifetime, s.nextId)]
    ensures r.nextId == s.nextId + 1
    ensures WellFormed(s) ==> WellFormed(r)
  {
    var th := Thought(s.nextId, Pick(Thoughts, u).value);
    s.(thoughts := s.thoughts + [th],
       tasks := s.tasks + [Expire(now + ThoughtLifetime, s.nextId)],
       nextId := s.nextId + 1)
  }

  /** `t.remove()`: the thoughts other than the one with `id`. */
  function Without(ths: seq<Thought>, id: nat): (r: seq<Thought>)
    ensures |r| <= |ths|
    ensures forall j :: 0 <= j < |r| ==> r[j].id != id
  {
    if |ths| == 0 then []
    else if ths[0].id == id then Without(ths[1..], id)
    else [ths[0]] + Without(ths[1..], id)
  }

  /** Removing one id keeps every other thought. */
  lemma {:induction false} WithoutKeeps(ths: seq<Thought>, id: nat, th: Thought)
    requires th in ths && th.id != id
    ensures th in Without(ths, id)
  {
    if ths[0] != th {
      WithoutKeeps(ths[1..], id, th);
    }
  }

  /** Removing a thought never brings back an id that was absent. */
  lemma {:induction false} WithoutAbsent(ths: seq<Thought>, id: nat, k: nat)
    requires forall j :: 0 <= j < |ths| ==> ths[j].id != k
    ensures forall j :: 0 <= j < |Without(ths, id)| ==> Without(ths, id)[j].id != k
  {
    if |ths| > 0 {
      WithoutAbsent(ths[1..], id, k);
    }
  }

  /** Removing a thought never adds one. */
  lemma {:induction false} WithoutSubset(ths: seq<Thought>, id: nat, th: Thought)
    requires th in Without(ths, id)
    ensures th in ths
  {
    if ths[0].id != id && th != ths[0] {
      assert th in Without(ths[1..], id);
      WithoutSubset(ths[1..], id, th);
    } else if ths[0].id == id {
      WithoutSubset(ths[1..], id, th);
    }
  }

  /** The effect of one timer callback. */
  function Fire(s: Scene, k: Task): (r: Scene)
    ensures k.Revert? ==> !r.glitch && !r.punchVisible && r.thoughts == s.thoughts
    ensures k.Expire? ==> r.glitch == s.glitch && r.punchVisible == s.punchVisible
    ensures k.Expire? ==> forall j :: 0 <= j < |r.thoughts| ==> r.thoughts[j].id != k.id
    ensures r.tasks == s.tasks && r.nextId == s.nextId && r.punchText == s.punchText
  {
    match k
    case Revert(_) => s.(glitch := false, punchVisible := false)
    case Expire(_, id) => s.(thoughts := Without(s.thoughts, id))
  }

  /** The first of the pending tasks with the earliest due time: the one the event loop runs next. */
  function Earliest(tasks: seq<Task>): (i: nat)
    requires |tasks| > 0
    ensures i < |tasks|
    ensures forall j :: 0 <= j < |tasks| ==> tasks[i].due <= tasks[j].due
    ensures forall j :: 0 <= j < i ==> tasks[j].due > tasks[i].due
  {
    if |tasks| == 1 then 0
    else
      var k := Earliest(tasks[..|tasks| - 1]);
      if tasks[|tasks| - 1].due < tasks[k].due then |tasks| - 1 else k
  }

  /** The tasks still pending at time `t`, in the order they were armed. */
  function Pending(tasks: seq<Task>, t: int): (r: seq<Task>)
    ensures |r| <= |tasks|
    ensures forall i :: 0 <= i < |r| ==> r[i].due > t
  {
    if |tasks| == 0 then []
    else if tasks[0].due > t then [tasks[0]] + Pending(tasks[1..], t)
    else Pending(tasks[1..], t)
  }

  lemma {:induction false} PendingAppend(a: seq<Task>, b: seq<Task>, t: int)
    ensures Pending(a + b, t) == Pending(a, t) + Pending(b, t)
  {
    if |a| > 0 {
      assert (a + b)[1..] == a[1..] + b;
      PendingAppend(a[1..], b, t);
    } else {
      assert a + b == b;
    }
  }

  /** Running a due task does not change what is still pending later. */
  lemma PendingDrop(tasks: seq<Task>, i: nat, t: int)
    requires i < |tasks| && tasks[i].due <= t
    ensures Pending(tasks[..i] + tasks[i + 1..], t) == Pending(tasks, t)
  {
    assert tasks == tasks[..i] + ([tasks[i]] + tasks[i + 1..]);
    PendingAppend(tasks[..i], [tasks[i]] + tasks[i + 1..], t);
    PendingAppend([tasks[i]], tasks[i + 1..], t);
    PendingAppend(tasks[..i], tasks[i + 1..], t);
  }

  /** When nothing is due, everything stays pending. */
  lemma {:induction false} PendingNoneDue(tasks: seq<Task>, t: int)
    requires forall i :: 0 <= i < |tasks| ==> tasks[i].due > t
    ensures Pending(tasks, t) == tasks
  {
    if |tasks| > 0 {
      PendingNoneDue(tasks[1..], t);
    }
  }

  /**
   * Lets time run up to `t`: runs every task due by then, earliest first,
   * each removed from the queue as it runs. Afterwards exactly the tasks due
   * later remain, in the order they were armed.
   */
  function AdvanceTo(s: Scene, t: int): (r: Scene)
    ensures r.tasks == Pending(s.tasks, t)
    ensures r.nextId == s.nextId && r.punchText == s.punchText
    ensures |r.thoughts| <= |s.thoughts|
    decreases |s.tasks|
  {
    if |s.tasks| == 0 then s
    else
      var i := Earliest(s.tasks);
      if s.tasks[i].due > t then
        PendingNoneDue(s.tasks, t);
        s
      else
        var rest := s.tasks[..i] + s.tasks[i + 1..];
        PendingDrop(s.tasks, i, t);
        AdvanceTo(Fire(s.(tasks := rest), s.tasks[i]), t)
  }

  /** The scene after running the earliest pending task. */
  function RunEarliest(s: Scene): (r: Scene)
    requires |s.tasks| > 0
    ensures |r.tasks| == |s.tasks| - 1
    ensures forall j :: 0 <= j < Earliest(s.tasks) ==> r.tasks[j] == s.tasks[j]
    ensures forall j :: Earliest(s.tasks) <= j < |r.tasks| ==> r.tasks[j] == s.tasks[j + 1]
    ensures s.tasks[Earliest(s.tasks)].Revert? ==> !r.glitch && !r.punchVisible && r.thoughts == s.thoughts
    ensures s.tasks[Earliest(s.tasks)].Expire? ==>
      r.glitch == s.glitch && r.punchVisible == s.punchVisible &&
      r.thoughts == Without(s.thoughts, s.tasks[Earliest(s.tasks)].id)
  {
    var i := Earliest(s.tasks);
    Fire(s.(tasks := s.tasks[..i] + s.tasks[i + 1..]), s.tasks[i])
  }

  /** When the earliest task is due by `t`, advancing runs it and carries on from there. */
  lemma AdvanceStep(s: Scene, t: int)
    requires |s.tasks| > 0 && s.tasks[Earliest(s.tasks)].due <= t
    ensures AdvanceTo(s, t) == AdvanceTo(RunEarliest(s), t)
  {
  }

  /** When nothing is due by `t`, advancing to `t` changes nothing. */
  lemma AdvanceIdle(s: Scene, t: int)
    requires |s.tasks| == 0 || s.tasks[Earliest(s.tasks)].due > t
    ensures AdvanceTo(s, t) == s
  {
  }

  /** Time passing never turns the glitch or the punch line on. */
  lemma {:induction false} AdvanceNeverRaises(s: Scene, t: int)
    ensures !s.glitch ==> !AdvanceTo(s, t).glitch
    ensures !s.punchVisible ==> !AdvanceTo(s, t).punchVisible
    decreases |s.tasks|
  {
    if |s.tasks| > 0 && s.tasks[Earliest(s.tasks)].due <= t {
      AdvanceStep(s, t);
      AdvanceNeverRaises(RunEarliest(s), t);
    } else {
      AdvanceIdle(s, t);
    }
  }

  /** With no revert due by `t`, the glitch flag and punch line stay as they are. */
  lemma {:induction false} AdvanceWithoutRevert(s: Scene, t: int)
    requires forall i :: 0 <= i < |s.tasks| ==> s.tasks[i].Revert? ==> s.tasks[i].due > t
    ensures AdvanceTo(s, t).glitch == s.glitch && AdvanceTo(s, t).punchVisible == s.punchVisible
    decreases |s.tasks|
  {
    if |s.tasks| > 0 && s.tasks[Earliest(s.tasks)].due <= t {
      var next := RunEarliest(s);
      AdvanceStep(s, t);
      forall j | 0 <= j < |next.tasks| ensures next.tasks[j].Revert? ==> next.tasks[j].due > t {
        if j < Earliest(s.tasks) { assert next.tasks[j] == s.tasks[j]; }
        else { assert next.tasks[j] == s.tasks[j + 1]; }
      }
      AdvanceWithoutRevert(next, t);
    } else {
      AdvanceIdle(s, t);
    }
  }

  /** Running timers keeps every thought and every pending removal pointing at an id already handed out. */
  lemma {:induction false} AdvanceKeepsWellFormed(s: Scene, t: int)
    requires WellFormed(s)
    ensures WellFormed(AdvanceTo(s, t))
    decreases |s.tasks|
  {
    if |s.tasks| > 0 && s.tasks[Earliest(s.tasks)].due <= t {
      var e := s.tasks[Earliest(s.tasks)];
      var next := RunEarliest(s);
      AdvanceStep(s, t);
      forall j | 0 <= j < |next.thoughts| ensures next.thoughts[j].id < next.nextId {
        if e.Expire? {
          WithoutSubset(s.thoughts, e.id, next.thoughts[j]);
        }
      }
      forall i | 0 <= i < |next.tasks| ensures next.tasks[i].Expire? ==> next.tasks[i].id < next.nextId {
        if i < Earliest(s.tasks) { assert next.tasks[i] == s.tasks[i]; }
        else { assert next.tasks[i] == s.tasks[i + 1]; }
      }
      AdvanceKeepsWellFormed(next, t);
    } else {
      AdvanceIdle(s, t);
    }
  }

  /** A task other than the earliest survives the earliest one's run, one slot earlier if it came after it. */
  lemma StepKeepsTask(s: Scene, k: nat)
    requires k < |s.tasks| && k != Earliest(s.tasks)
    ensures var j := if k < Earliest(s.tasks) then k else k - 1;
      j < |RunEarliest(s).tasks| && RunEarliest(s).tasks[j] == s.tasks[k]
  {
  }

  /** When the earliest task is a revert due by `t`, advancing to `t` leaves the glitch off. */
  lemma RevertFirstClears(s: Scene, t: int)
    requires |s.tasks| > 0 && s.tasks[Earliest(s.tasks)].Revert? && s.tasks[Earliest(s.tasks)].due <= t
    ensures !AdvanceTo(s, t).glitch && !AdvanceTo(s, t).punchVisible
  {
    AdvanceStep(s, t);
    AdvanceNeverRaises(RunEarliest(s), t);
  }

  /** Once a revert is due by `t`, advancing to `t` clears the glitch flag and hides the punch line. */
  lemma {:induction false} AdvancePastRevert(s: Scene, t: int, k: nat)
    requires k < |s.tasks| && s.tasks[k].Revert? && s.tasks[k].due <= t
    ensures !AdvanceTo(s, t).glitch && !AdvanceTo(s, t).punchVisible
    decreases |s.tasks|
  {
    var i := Earliest(s.tasks);
    if i == k {
      RevertFirstClears(s, t);
    } else {
      var j := if k < i then k else k - 1;
      StepKeepsTask(s, k);
      AdvanceStep(s, t);
      AdvancePastRevert(RunEarliest(s), t, j);
    }
  }

  /** A thought stays on screen while no removal for its id has come due. */
  lemma {:induction false} AdvanceKeepsThought(s: Scene, t: int, th: Thought)
    requires th in s.thoughts
    requires forall i :: 0 <= i < |s.tasks| ==> s.tasks[i].Expire? && s.tasks[i].id == th.id ==> s.tasks[i].due > t
    ensures th in AdvanceTo(s, t).thoughts
    decreases |s.tasks|
  {
    if |s.tasks| > 0 && s.tasks[Earliest(s.tasks)].due <= t {
      var e := s.tasks[Earliest(s.tasks)];
      var next := RunEarliest(s);
      AdvanceStep(s, t);
      forall j | 0 <= j < |next.tasks| ensures next.tasks[j].Expire? && next.tasks[j].id == th.id ==> next.tasks[j].due > t {
        if j < Earliest(s.tasks) { assert next.tasks[j] == s.tasks[j]; }
        else { assert next.tasks[j] == s.tasks[j + 1]; }
      }
      if e.Expire? {
        WithoutKeeps(s.thoughts, e.id, th);
      }
      AdvanceKeepsThought(next, t, th);
    } else {
      AdvanceIdle(s, t);
    }
  }

  /** Time passing never brings back a thought id that is not on screen. */
  lemma {:induction false} AdvanceKeepsAbsent(s: Scene, t: int, id: nat)
    requires forall j :: 0 <= j < |s.thoughts| ==> s.thoughts[j].id != id
    ensures forall j :: 0 <= j < |AdvanceTo(s, t).thoughts| ==> AdvanceTo(s, t).thoughts[j].id != id
    decreases |s.tasks|
  {
    if |s.tasks| > 0 && s.tasks[Earliest(s.tasks)].due <= t {
      var e := s.tasks[Earliest(s.tasks)];
      AdvanceStep(s, t);
      if e.Expire? {
        WithoutAbsent(s.thoughts, e.id, id);
      }
      AdvanceKeepsAbsent(RunEarliest(s), t, id);
    } else {
      AdvanceIdle(s, t);
    }
  }

  /** When the earliest task is a removal due by `t`, advancing to `t` leaves its thought off screen. */
  lemma ExpireFirstRemoves(s: Scene, t: int)
    requires |s.tasks| > 0 && s.tasks[Earliest(s.tasks)].Expire? && s.tasks[Earliest(s.tasks)].due <= t
    ensures var id := s.tasks[Earliest(s.tasks)].id;
      forall j :: 0 <= j < |AdvanceTo(s, t).thoughts| ==> AdvanceTo(s, t).thoughts[j].id != id
  {
    var id := s.tasks[Earliest(s.tasks)].id;
    AdvanceStep(s, t);
    AdvanceKeepsAbsent(RunEarliest(s), t, id);
  }

  /** Once the removal of a thought is due by `t`, advancing to `t` takes it off screen. */
  lemma {:induction false} AdvancePastExpire(s: Scene, t: int, k: nat)
    requires k < |s.tasks| && s.tasks[k].Expire? && s.tasks[k].due <= t
    ensures forall j :: 0 <= j < |AdvanceTo(s, t).thoughts| ==> AdvanceTo(s, t).thoughts[j].id != s.tasks[k].id
    decreases |s.tasks|
  {
    var i := Earliest(s.tasks);
    if i == k {
      ExpireFirstRemoves(s, t);
    } else {
      var j := if k < i then k else k - 1;
      StepKeepsTask(s, k);
      AdvanceStep(s, t);
      AdvancePastExpire(RunEarliest(s), t, j);
    }
  }

  /**
   * After `triggerGlitch` at `now`, and while no earlier revert has come due,
   * the glitch flag is set and a line of `PUNCH_LINES` is shown until just
   * before `now + 1300`.
   */
  lemma GlitchShownUntilRevert(s: Scene, now: int, u: Draw, t: int)
    requires now <= t < now + GlitchDuration
    requires forall i :: 0 <= i < |s.tasks| ==> s.tasks[i].Revert? ==> s.tasks[i].due > t
    ensures AdvanceTo(TriggerGlitch(s, now, u), t).glitch
    ensures AdvanceTo(TriggerGlitch(s, now, u), t).punchVisible
    ensures AdvanceTo(TriggerGlitch(s, now, u), t).punchText in PunchLines
  {
    var g := TriggerGlitch(s, now, u);
    forall i | 0 <= i < |g.tasks| ensures g.tasks[i].Revert? ==> g.tasks[i].due > t {
      if i < |s.tasks| { assert g.tasks[i] == s.tasks[i]; }
    }
    AdvanceWithoutRevert(g, t);
  }

  /** From `now + 1300` on, the revert armed by `triggerGlitch` at `now` has cleared the flag and hidden the punch line. */
  lemma GlitchRevertedAfter(s: Scene, now: int, u: Draw, t: int)
    requires t >= now + GlitchDuration
    ensures !AdvanceTo(TriggerGlitch(s, now, u), t).glitch
    ensures !AdvanceTo(TriggerGlitch(s, now, u), t).punchVisible
  {
    var g := TriggerGlitch(s, now, u);
    AdvancePastRevert(g, t, |s.tasks|);
  }

  /**
   * No re-entrancy guard: a second trigger at `t2` during a glitch started at
   * `t1 < t2` arms a second revert, yet the first revert, due at `t1 + 1300`,
   * already clears the flag while the second is still pending.
   */
  lemma OverlappingGlitchesEndEarly(s: Scene, t1: int, u1: Draw, t2: int, u2: Draw)
    requires t1 < t2 < t1 + GlitchDuration
    ensures var r := AdvanceTo(TriggerGlitch(TriggerGlitch(s, t1, u1), t2, u2), t1 + GlitchDuration);
      !r.glitch && !r.punchVisible && Revert(t2 + GlitchDuration) in r.tasks
  {
    var g := TriggerGlitch(TriggerGlitch(s, t1, u1), t2, u2);
    var t := t1 + GlitchDuration;
    AdvancePastRevert(g, t, |s.tasks|);
    assert g.tasks == s.tasks + [Revert(t1 + GlitchDuration)] + [Revert(t2 + GlitchDuration)];
    PendingAppend(s.tasks + [Revert(t1 + GlitchDuration)], [Revert(t2 + GlitchDuration)], t);
    var p := Pending(s.tasks + [Revert(t1 + GlitchDuration)], t);
    assert Pending([Revert(t2 + GlitchDuration)], t) == [Revert(t2 + GlitchDuration)];
    assert AdvanceTo(g, t).tasks == p + [Revert(t2 + GlitchDuration)];
    assert AdvanceTo(g, t).tasks[|p|] == Revert(t2 + GlitchDuration);
  }

  /**
   * A thought spawned at `now` on a well-formed scene shows a line of
   * `THOUGHTS` and stays on screen until just before `now + 1800`.
   */
  lemma ThoughtShownUntilExpiry(s: Scene, now: int, u: Draw, t: int)
    requires WellFormed(s) && now <= t < now + ThoughtLifetime
    ensures var sp := SpawnThought(s, now, u);
      sp.thoughts[|s.thoughts|].text in Thoughts && sp.thoughts[|s.thoughts|] in AdvanceTo(sp, t).thoughts
  {
    var sp := SpawnThought(s, now, u);
    var th := sp.thoughts[|s.thoughts|];
    forall i | 0 <= i < |sp.tasks| ensures sp.tasks[i].Expire? && sp.tasks[i].id == th.id ==> sp.tasks[i].due > t {
      if i < |s.tasks| { assert sp.tasks[i] == s.tasks[i]; }
    }
    AdvanceKeepsThought(sp, t, th);
  }

  /** From `now + 1800` on, the thought spawned at `now` is gone. */
  lemma ThoughtGoneAfterExpiry(s: Scene, now: int, u: Draw, t: int)
    requires t >= now + ThoughtLifetime
    ensures var r := AdvanceTo(SpawnThought(s, now, u), t);
      forall j :: 0 <= j < |r.thoughts| ==> r.thoughts[j].id != s.nextId
  {
    AdvancePastExpire(SpawnThought(s, now, u), t, |s.tasks|);
  }
}
