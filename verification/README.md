# time-capsule: a Dafny model of the fragment scene

`script.js` drives a single-page "time capsule". A click on the start screen
scatters 88 floating memory fragments (44 images and videos, each twice) in
a random order and at random places and sizes, each with a random drift
animation. Every click on a fragment spawns a short floating thought, and
five clicks within 1.2 seconds trigger a "glitch": the page flashes a glitch
style and shows a punch line for 1.3 seconds.

This project models the logic behind that, with every source of
nondeterminism made explicit:

- `Math.random()` is a stream of draws in [0, 1) (`Random.Rng`). `rand`,
  `pick`, `sizeBucket`, the geometry of `createFragment` and the shuffle
  comparator all consume draws from it in the script's order.
- `Date.now()` is a parameter (`now`) of every click.
- Each `setTimeout` becomes a pending task with a due time (`Glitch.Task`).
  `Glitch.AdvanceTo` lets time pass and runs the due tasks, earliest first.

Modules, one file each:

- `Wrappers`: the `Option` type (`pick` on an empty array gives `undefined`).
- `Random`: `rand`, `pick` and the draw stream.
- `Catalogue`: `BASE` and `FRAGMENTS`. Asset paths are abstracted to a kind and an index.
- `Shuffle`: `FRAGMENTS.sort(() => Math.random() - 0.5)`.
- `Layout`: `sizeBucket` and the position and motion parameters of `createFragment`.
- `Experience`: `startExperience`, the shuffle followed by one fragment per entry.
- `Combo`: the click-combo detector of `onFragmentClick`.
- `Glitch`: `triggerGlitch`, `spawnThought`, and their timers.
- `Interaction`: `onFragmentClick` as a whole, a thought followed by the combo check and possibly a glitch.

The code arms one revert per glitch trigger and has no re-entrancy guard:
each trigger arms its own revert, and the earliest one clears the glitch.
`Glitch.OverlappingGlitchesEndEarly` shows that the first revert clears the
glitch while the second one is still pending.

## Model

| member | source | states |
|---|---|---|
| Random.Rand | script.js:43 | `rand(min, max)` lies in [min, max) when min < max, in (max, min] when the range is reversed, and equals min when the range is empty |
| Random.RandRecoversDraw | script.js:43 | on a non-empty range, `rand` is injective in the draw: the draw can be read back from the result |
| Random.RandMonotone | script.js:43 | on an increasing range, a larger draw never gives a smaller `rand` |
| Random.PickIndex | script.js:44 | `Math.floor(Math.random() * n)` is a valid index and is the floor of draw times n |
| Random.Pick | script.js:44 | `pick(arr)` returns an element of `arr` exactly when `arr` is non-empty, and `undefined` otherwise |
| Random.PickReachesEveryIndex | script.js:44 | every index of a non-empty array is chosen by some draw, so `pick` can return any element |
| Catalogue.Base | script.js:9-14 | `BASE` has 44 entries: image k+1 at positions k < 37, then videos 38..44 |
| Catalogue.BaseMembership | script.js:9-14 | an item is in `BASE` iff it is an image 1..37 or a video 38..44 |
| Catalogue.BaseDistinct | script.js:9-14 | no asset is listed twice in `BASE` |
| Catalogue.Repeat | script.js:16-18 | m copies of a list have m times its length, and entry k is entry k mod length of the list |
| Catalogue.Fragments | script.js:16-18 | `FRAGMENTS` has MULTIPLIER * 44 = 88 entries, and entry k is `BASE[k mod 44]` |
| Catalogue.FragmentsAreTwoCopies | script.js:16-18 | with MULTIPLIER = 2, `FRAGMENTS` is `BASE` followed by `BASE` |
| Catalogue.FragmentCounts | script.js:16-18 | each asset of `BASE` occurs exactly MULTIPLIER times in `FRAGMENTS`, and nothing else occurs |
| Catalogue.BaseCountsOnce | script.js:9-14 | each asset occurs exactly once in `BASE` |
| Shuffle.Compare | script.js:148 | the comparator's answer `Math.random() - 0.5` lies in [-0.5, 0.5) |
| Shuffle.InsertBack | script.js:148 | one insertion step of the sort adds exactly the inserted element, and consumes at most one draw per comparison |
| Shuffle.SortBy | script.js:148 | the random-comparator sort is a permutation: same multiset and length, whatever the draws |
| Shuffle.SortPreservesCounts | script.js:148 | every value occurs as often after the shuffle as before, and membership is unchanged |
| Layout.SizeBucket | script.js:47-52 | a first draw below 0.75 gives sides in [45, 85), one in [0.75, 0.97) gives [90, 150), and any other gives [160, 220) |
| Layout.TiersDisjoint | script.js:47-52 | the three side ranges do not overlap |
| Layout.SizeRevealsTier | script.js:47-52 | the tier can be recovered from either side of the size, and every side lies in [45, 220) |
| Layout.Place | script.js:61-62 | a fragment that fits is placed with its whole box inside the viewport; one that does not fit gets an offset in (viewport - size, 0] |
| Layout.Drift | script.js:64-70 | dur in [10, 22) s, dx1 and dy1 in [-10, 10) px, dx2 and dy2 in [-15, 15) px, r1 and r2 in [-2, 2) degrees |
| Layout.CreateGeometry | script.js:58-70 | `createFragment` uses twelve draws, its sizes stay within the drawn tier, its motion is in range, and the box is inside the viewport iff it fits |
| Layout.LargeViewportHoldsEveryFragment | script.js:58-62 | in a viewport of at least 220 x 220 every fragment lies fully inside it |
| Experience.SpawnAll | script.js:149-151 | one fragment per entry, in order, each with in-range size and motion, and inside the viewport iff it fits |
| Experience.ShuffleAndSpawn | script.js:148-151 | the fragments show a permutation of the entries, and every fragment is placed as above |
| Experience.StartExperience | script.js:147-152 | the scene holds 88 fragments showing exactly the entries of `FRAGMENTS`, every one placed as above |
| Experience.SceneShowsEachAssetTwice | script.js:147-152 | the scene shows every asset exactly MULTIPLIER times and nothing else |
| Experience.SceneFitsLargeViewport | script.js:147-152 | in a viewport of at least 220 x 220, every fragment of the scene lies inside it |
| Combo.Recent | script.js:114 | the window filter keeps only timestamps t with now - t < 1200 |
| Combo.RecentMembers | script.js:114 | a timestamp survives the filter iff it was recorded and is inside the window |
| Combo.RecentAllFresh | script.js:114 | when every timestamp is inside the window, the filter evicts nothing |
| Combo.RecentAllStale | script.js:114 | when no timestamp is inside the window, the filter evicts all of them |
| Combo.RecentCountsWindow | script.js:114 | the filtered list is as long as the number of recorded clicks inside the window |
| Combo.Click | script.js:113-119 | after any click at most four timestamps are held, all inside the window, and a firing click empties the list |
| Combo.ClickFiresOnFifth | script.js:113-119 | a click fires iff, counting itself, at least five clicks fall inside the window; otherwise the list gains exactly this click |
| Combo.ClickRetains | script.js:114-115 | after a non-firing click, the list holds exactly this click and the earlier ones still inside the window |
| Combo.ClicksAppend | script.js:113-119 | feeding two runs of clicks one after the other equals feeding their concatenation |
| Combo.BurstRun | script.js:113-119 | in a burst shorter than the window, only the click that brings the count to five fires; before it, the list is exactly the clicks so far |
| Combo.FiveQuickClicksFireOnce | script.js:113-119 | five clicks in order within less than 1200 ms, after a stale history, fire exactly once, at the fifth, leaving the list empty |
| Combo.FourThenLateDoesNotFire | script.js:113-119 | four quick clicks followed by a fifth at least 1200 ms after the first do not fire |
| Combo.WindowBoundaryIsStrict | script.js:114 | a fifth click 1199 ms after four others fires; one exactly 1200 ms after finds all four evicted |
| Glitch.TriggerGlitch | script.js:133-144 | the glitch flag is set, the punch line is shown with a text from `PUNCH_LINES`, and one revert is armed for now + 1300 |
| Glitch.SpawnThought | script.js:122-131 | one thought with a fresh id and a text from `THOUGHTS` is appended, and its removal is armed for now + 1800; everything else is kept |
| Glitch.Without | script.js:130 | removing a thought leaves no thought with its id |
| Glitch.WithoutKeeps | script.js:130 | removing a thought keeps every other thought |
| Glitch.Fire | script.js:130-143 | a revert callback clears the glitch flag and hides the punch line; a removal callback takes every thought with its id off screen and leaves the glitch state alone; neither touches the pending timers, the ids or the punch text |
| Glitch.AdvanceTo | script.js:130-143 | letting time pass to t runs exactly the timers due by t, leaving the rest pending in order |
| Glitch.AdvanceNeverRaises | script.js:139-143 | timers never turn the glitch or the punch line on |
| Glitch.AdvanceWithoutRevert | script.js:139-143 | while no revert is due, the glitch flag and the punch line stay as they are |
| Glitch.AdvancePastRevert | script.js:139-143 | once any revert is due, the glitch flag is off and the punch line hidden |
| Glitch.AdvanceKeepsThought | script.js:130 | a thought stays on screen while its removal is not due |
| Glitch.AdvancePastExpire | script.js:130 | once the removal of a thought is due, that thought is gone |
| Glitch.GlitchShownUntilRevert | script.js:133-144 | after a trigger at T, and with no earlier revert pending, the glitch and a punch line are shown at every time from T up to just before T + 1300 |
| Glitch.GlitchRevertedAfter | script.js:139-143 | from T + 1300 on, the glitch started at T has been reverted |
| Glitch.OverlappingGlitchesEndEarly | script.js:133-144 | a second trigger at T2 during a glitch started at T1 (T1 < T2 < T1 + 1300) does not extend it: the glitch is off at T1 + 1300 while the second revert is still pending |
| Glitch.ThoughtShownUntilExpiry | script.js:122-131 | a thought spawned at T shows a text from `THOUGHTS` and stays on screen at every time from T up to just before T + 1800 |
| Glitch.AdvanceKeepsWellFormed | script.js:130 | running timers keeps every thought and every pending removal referring to an id already handed out, so the lifetime lemmas apply at any later time |
| Glitch.ThoughtGoneAfterExpiry | script.js:130 | from T + 1800 on, the thought spawned at T is gone |
| Interaction.OnFragmentClick | script.js:100-120 | a click keeps the earlier thoughts and appends one with a fresh id and a text from `THOUGHTS`, arming its removal at now + 1800; then it updates the combo. If the combo fires, the glitch and a punch line from `PUNCH_LINES` are shown and a revert is armed at now + 1300; otherwise the glitch and punch line are unchanged and only the removal is armed |
| Interaction.ClickThoughtGoneAfterExpiry | script.js:111-131 | the thought a click spawns at T is gone from T + 1800 on |
| Interaction.ClickGlitchRevertedAfter | script.js:116-143 | a click that fires the combo at T has its glitch and punch line cleared from T + 1300 on |
| Interaction.ClicksFollowCombo | script.js:100-120 | with no timer coming due during the run, a run of clicks ends with the combo detector's timestamps, one thought per click, and one pending revert per firing click |
| Interaction.FiveQuickClicksStartOneGlitch | script.js:100-120 | five quick clicks on a fresh page start exactly one glitch, with a punch line shown and five thoughts spawned |
| Interaction.FourThenLateStartsNoGlitch | script.js:100-120 | four quick clicks and a late fifth start no glitch and arm no revert |

## Left out

- DOM construction, CSS classes beyond the glitch and punch state, and element styles: rendering, not logic.
- Video handling: lazy `src` loading, `play()` and the 2-second `pause()` timer (script.js:72-83, 104-109). This is media plumbing.
- The 500 ms flash class on the clicked fragment (script.js:101-102). It is a purely visual timer.
- The thought's on-screen position, the centre of the fragment's bounding box. It depends on layout the model does not have.
- Asset path strings. An entry keeps only its kind and number, which determine the path.
- `Math.random`, `Date.now` and `setTimeout` are not called. They become a draw stream, a time parameter and pending tasks.
- Floating-point arithmetic. Sizes, offsets and motion values are exact reals.
- Distribution statistics of the shuffle and of the layout. Only ranges and permutations are stated.
- Shuffle.SortBy: models the engine's sort as an insertion sort that spends one draw per comparison. V8 actually uses TimSort, so the concrete order and the number of draws consumed differ. The permutation property holds for any comparison sort.
- Shuffle.KeepingDrawsLeaveOrder: holds only for the insertion sort that stands in for the engine's sort. V8's TimSort, for example, reverses a run when every comparator answer is negative, so it is not a claim about script.js.
- Interaction.ClicksFollowCombo: holds only for runs during which no timer comes due. In the browser a thought expiring or a revert falling due between two clicks changes the thought count and the glitch state.
- Interaction.Clicks: assumes no timer comes due between the clicks of a run. Timers are modelled separately by `Glitch.AdvanceTo`.
- `spawnThought` runs before `Date.now()` is read (script.js:111-113). The model gives both the same instant.
- A `setTimeout` callback may run later than its delay. The model runs a task as soon as time reaches its due time, ties going to the timer armed first.
- The audio graph and any avoidance of the screen centre do not occur in `script.js`. They are not part of this model.
