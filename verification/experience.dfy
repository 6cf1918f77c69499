/**
 * `startExperience`: shuffles `FRAGMENTS` and creates one placed fragment
 * per entry, in the shuffled order.
 */
module Experience {
  import opened Random
  import opened Catalogue
  import opened Shuffle
  import opened Layout

  /** One mounted fragment: the catalogue entry it shows and its geometry. */
  datatype Fragment = Fragment(item: Item, geo: Geometry)

  /**
   * What every spawned fragment satisfies: both sides in [45, 220), motion in
   * its fixed ranges, and the box inside the viewport exactly when it fits.
   */
  predicate WellPlaced(geo: Geometry, vp: Viewport)
  {
    && 45.0 <= geo.size.w < 220.0 && 45.0 <= geo.size.h < 220.0
    && MotionInRange(geo.motion)
    && (Inside(geo, vp) <==> geo.size.w <= vp.width as real && geo.size.h <= vp.height as real)
  }

  /** `items.forEach(item => createFragment(item))`, drawing for each item in turn. */
  function SpawnAll(items: seq<Item>, vp: Viewport, g: Rng): (r: seq<Fragment>)
    ensures |r| == |items|
    ensures forall i :: 0 <= i < |r| ==> r[i].item == items[i]
    ensures forall i :: 0 <= i < |r| ==> WellPlaced(r[i].geo, vp)
    decreases |items|
  {
    if |items| == 0 then []
    else
      var (geo, g') := CreateGeometry(vp, g);
      [Fragment(items[0], geo)] + SpawnAll(items[1..], vp, g')
  }

  /** The entries shown by a list of fragments. */
  function Items(fs: seq<Fragment>): (r: seq<Item>)
  {
    seq(|fs|, i requires 0 <= i < |fs| => fs[i].item)
  }

  /** Shuffles a list of entries and spawns one fragment for each, in the shuffled order. */
  function ShuffleAndSpawn(items: seq<Item>, vp: Viewport, g: Rng): (r: seq<Fragment>)
    ensures |r| == |items|
    ensures multiset(Items(r)) == multiset(items)
    ensures forall i :: 0 <= i < |r| ==> WellPlaced(r[i].geo, vp)
  {
    var shuffled := SortBy(items, g);
    var r := SpawnAll(shuffled.items, vp, shuffled.rng);
    assert Items(r) == shuffled.items;
    r
  }

  /** `startExperience()`: the whole catalogue `FRAGMENTS`, shuffled and spawned. */
  function StartExperience(vp: Viewport, g: Rng): (r: seq<Fragment>)
    ensures |r| == Multiplier * BaseCount
    ensures multiset(Items(r)) == multiset(Fragments())
    ensures forall i :: 0 <= i < |r| ==> WellPlaced(r[i].geo, vp)
  {
    ShuffleAndSpawn(Fragments(), vp, g)
  }

  /** The scene shows every asset exactly `MULTIPLIER` times and nothing else. */
  lemma SceneShowsEachAssetTwice(vp: Viewport, g: Rng, it: Item)
    ensures it in Base() ==> multiset(Items(StartExperience(vp, g)))[it] == Multiplier
    ensures it !in Base() ==> multiset(Items(StartExperience(vp, g)))[it] == 0
  {
    FragmentCounts(it);
  }

  /** In a viewport of at least 220 x 220 px every fragment of the scene lies fully inside it. */
  lemma SceneFitsLargeViewport(vp: Viewport, g: Rng, i: nat)
    requires vp.width >= 220 && vp.height >= 220
    requires i < Multiplier * BaseCount
    ensures Inside(StartExperience(vp, g)[i].geo, vp)
  {
    assert WellPlaced(StartExperience(vp, g)[i].geo, vp);
  }
}
