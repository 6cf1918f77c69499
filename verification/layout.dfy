/**
 * The layout part of script.js: `sizeBucket` and the geometry and motion
 * that `createFragment` draws for each fragment. Sizes and offsets are
 * exact reals; the viewport is `window.innerWidth` by `window.innerHeight`
 * CSS pixels.
 */
module Layout {
  import opened Random

  /** The three size tiers of `sizeBucket`, chosen by a first draw. */
  datatype Tier = Small | Medium | Large

  /** Threshold below which the first draw selects the small tier. */
  const SmallCut: real := 0.75
  /** Threshold below which (and at or above `SmallCut`) the draw selects the medium tier. */
  const MediumCut: real := 0.97

  datatype Size = Size(w: real, h: real)

  datatype Viewport = Viewport(width: nat, height: nat)

  /** Drift animation parameters: duration in seconds, two displacement pairs in px, two rotations in degrees. */
  datatype Motion = Motion(dur: real, dx1: real, dy1: real, dx2: real, dy2: real, r1: real, r2: real)

  /** Everything `createFragment` computes for one fragment before it builds the DOM node. */
  datatype Geometry = Geometry(size: Size, left: real, top: real, motion: Motion)

  /** The tier a first draw selects. */
  function TierOf(r: Draw): Tier
  {
    if r < SmallCut then Small else if r < MediumCut then Medium else Large
  }

  /** The half-open side-length range `[lo, hi)` of a tier. */
  function Lo(t: Tier): real
  {
    match t
    case Small => 45.0
    case Medium => 90.0
    case Large => 160.0
  }

  function Hi(t: Tier): real
  {
    match t
    case Small => 85.0
    case Medium => 150.0
    case Large => 220.0
  }

  /** A side length lies in the range of tier `t`. */
  predicate InTier(x: real, t: Tier)
  {
    Lo(t) <= x < Hi(t)
  }

  /** `sizeBucket()`: one draw picks the tier, two more pick width and height inside it. */
  function SizeBucket(r: Draw, uw: Draw, uh: Draw): (s: Size)
    ensures r < 0.75 ==> 45.0 <= s.w < 85.0 && 45.0 <= s.h < 85.0
    ensures 0.75 <= r < 0.97 ==> 90.0 <= s.w < 150.0 && 90.0 <= s.h < 150.0
    ensures 0.97 <= r ==> 160.0 <= s.w < 220.0 && 160.0 <= s.h < 220.0
    ensures InTier(s.w, TierOf(r)) && InTier(s.h, TierOf(r))
  {
    var t := TierOf(r);
    Size(Rand(Lo(t), Hi(t), uw), Rand(Lo(t), Hi(t), uh))
  }

  /** The tier a side length belongs to, if any: the inverse of the tier ranges. */
  function Classify(x: real): (t: Tier)
  {
    if x < 90.0 then Small else if x < 160.0 then Medium else Large
  }

  /** The tiers are disjoint: a side length in some tier's range identifies that tier. */
  lemma TiersDisjoint(x: real, t: Tier, t': Tier)
    requires InTier(x, t) && InTier(x, t')
    ensures t == t'
  {
  }

  /** The tier of a bucket can be read back from its width (or height) alone, and every side is in [45, 220). */
  lemma SizeRevealsTier(r: Draw, uw: Draw, uh: Draw)
    ensures Classify(SizeBucket(r, uw, uh).w) == TierOf(r)
    ensures Classify(SizeBucket(r, uw, uh).h) == TierOf(r)
    ensures 45.0 <= SizeBucket(r, uw, uh).w < 220.0 && 45.0 <= SizeBucket(r, uw, uh).h < 220.0
  {
  }

  /** The top-left corner `(rand(0, innerWidth - w), rand(0, innerHeight - h))`. */
  function Place(vp: Viewport, s: Size, ul: Draw, ut: Draw): (pos: (real, real))
    ensures s.w <= vp.width as real ==> 0.0 <= pos.0 <= vp.width as real - s.w
    ensures s.w > vp.width as real ==> vp.width as real - s.w < pos.0 <= 0.0
    ensures s.h <= vp.height as real ==> 0.0 <= pos.1 <= vp.height as real - s.h
    ensures s.h > vp.height as real ==> vp.height as real - s.h < pos.1 <= 0.0
  {
    (Rand(0.0, vp.width as real - s.w, ul), Rand(0.0, vp.height as real - s.h, ut))
  }

  /** The seven `rand` calls for the drift animation, in the order the script makes them. */
  function Drift(ud: Draw, ux1: Draw, uy1: Draw, ux2: Draw, uy2: Draw, ur1: Draw, ur2: Draw): (m: Motion)
    ensures MotionInRange(m)
  {
    Motion(Rand(10.0, 22.0, ud),
           Rand(-10.0, 10.0, ux1), Rand(-10.0, 10.0, uy1),
           Rand(-15.0, 15.0, ux2), Rand(-15.0, 15.0, uy2),
           Rand(-2.0, 2.0, ur1), Rand(-2.0, 2.0, ur2))
  }

  /** How many times `createFragment` calls `Math.random()`. */
  const DrawsPerFragment: nat := 12

  /** The fragment's box lies fully inside the viewport. */
  predicate Inside(g: Geometry, vp: Viewport)
  {
    0.0 <= g.left && g.left + g.size.w <= vp.width as real &&
    0.0 <= g.top && g.top + g.size.h <= vp.height as real
  }

  /** The motion parameters lie in the script's fixed ranges. */
  predicate MotionInRange(m: Motion)
  {
    10.0 <= m.dur < 22.0 &&
    -10.0 <= m.dx1 < 10.0 && -10.0 <= m.dy1 < 10.0 &&
    -15.0 <= m.dx2 < 15.0 && -15.0 <= m.dy2 < 15.0 &&
    -2.0 <= m.r1 < 2.0 && -2.0 <= m.r2 < 2.0
  }

  /** The geometry part of `createFragment`, drawing from `g` in the script's order. */
  function CreateGeometry(vp: Viewport, g: Rng): (r: (Geometry, Rng))
    ensures r.1.draw == g.draw && r.1.pos == g.pos + DrawsPerFragment
    ensures var geo := r.0; var t := TierOf(g.draw(g.pos));
      InTier(geo.size.w, t) && InTier(geo.size.h, t) && MotionInRange(geo.motion)
    ensures Inside(r.0, vp) <==> r.0.size.w <= vp.width as real && r.0.size.h <= vp.height as real
  {
    var d := (k: nat) => g.draw(g.pos + k);
    var size := SizeBucket(d(0), d(1), d(2));
    var pos := Place(vp, size, d(3), d(4));
    var motion := Drift(d(5), d(6), d(7), d(8), d(9), d(10), d(11));
    (Geometry(size, pos.0, pos.1, motion), Rng(g.draw, g.pos + DrawsPerFragment))
  }

  /** A viewport at least 220 px on each side holds every fragment, whatever the draws. */
  lemma LargeViewportHoldsEveryFragment(vp: Viewport, g: Rng)
    requires vp.width >= 220 && vp.height >= 220
    ensures Inside(CreateGeometry(vp, g).0, vp)
  {
  }
}
