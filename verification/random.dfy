/**
 * The two random helpers of script.js, `rand(min, max)` and `pick(arr)`,
 * with `Math.random()` replaced by an explicit draw, and a stream of draws
 * that stands for the successive calls to `Math.random()`.
 */
module Random {
  import opened Wrappers

  /** One result of `Math.random()`: a real number in [0, 1). */
  type Draw = u: real | 0.0 <= u < 1.0

  /**
   * A source of draws: `draw(k)` is the k-th value `Math.random()` returns
   * during the session and `pos` is how many have been used so far.
   */
  datatype Rng = Rng(draw: nat -> Draw, pos: nat)

  /** Takes the next draw from the stream. */
  function Next(g: Rng): (Draw, Rng)
  {
    (g.draw(g.pos), Rng(g.draw, g.pos + 1))
  }

  /**
   * `rand(min, max)`: scales a draw onto the half-open interval from `min`
   * towards `max`. When `max < min` the interval is reversed, which is what
   * happens to a fragment wider than the viewport.
   */
  function Rand(min: real, max: real, u: Draw): (r: real)
    ensures min < max ==> min <= r < max
    ensures max < min ==> max < r <= min
    ensures min == max ==> r == min
  {
    Scale(u, max - min) + min
  }

  /** A draw scales a signed width `d` towards zero, never reaching `d` itself. */
  function Scale(u: Draw, d: real): (p: real)
    ensures d > 0.0 ==> 0.0 <= p < d
    ensures d < 0.0 ==> d < p <= 0.0
    ensures d == 0.0 ==> p == 0.0
  {
    var p := u * d;
    SpanBounds(u, d);
    assert d < 0.0 ==> d < p;
    p
  }

  lemma SpanBounds(u: Draw, d: real)
    ensures d > 0.0 ==> 0.0 <= u * d < d
    ensures d < 0.0 ==> d < u * d <= 0.0
  {
    if d > 0.0 {
      ScaleBounds(u, d);
    } else if d < 0.0 {
      ScaleBounds(u, -d);
      assert u * d == -(u * -d);
    }
  }

  /** A draw scales a positive width `d` into [0, d). */
  lemma ScaleBounds(u: Draw, d: real)
    requires d > 0.0
    ensures 0.0 <= u * d < d
  {
    assert (1.0 - u) * d > 0.0 by { PositiveProduct(1.0 - u, d); }
    assert u * d >= 0.0 by { if u > 0.0 { PositiveProduct(u, d); } }
  }

  lemma PositiveProduct(a: real, b: real)
    requires a > 0.0 && b > 0.0
    ensures a * b > 0.0
  {
  }

  /** `rand` loses nothing: on a non-empty interval the draw can be read back from the result. */
  lemma RandRecoversDraw(min: real, max: real, u: Draw)
    requires min != max
    ensures (Rand(min, max, u) - min) / (max - min) == u
  {
    var r := Rand(min, max, u);
    assert r - min == u * (max - min);
  }

  /** `rand` is monotone in the draw when `min < max`. */
  lemma RandMonotone(min: real, max: real, u: Draw, v: Draw)
    requires min < max && u <= v
    ensures Rand(min, max, u) <= Rand(min, max, v)
  {
    if u < v {
      ScaleGap(u, v, max - min);
    }
  }

  lemma ScaleGap(u: Draw, v: Draw, w: real)
    requires u < v && w > 0.0
    ensures Scale(u, w) < Scale(v, w)
  {
    ProductGap(u, v, w);
  }

  lemma ProductGap(u: real, v: real, w: real)
    requires u < v && w > 0.0
    ensures u * w < v * w
  {
    PositiveProduct(v - u, w);
    Distribute(v, u, w);
  }

  lemma Distribute(a: real, b: real, c: real)
    ensures (a - b) * c == a * c - b * c
  {
  }

  /** The index `Math.floor(Math.random() * n)`. */
  function PickIndex(n: nat, u: Draw): (i: nat)
    requires n > 0
    ensures i < n
    ensures i as real <= u * n as real < i as real + 1.0
  {
    var x := u * n as real;
    assert 0.0 <= x < n as real;
    x.Floor
  }

  /**
   * `pick(arr)`: the element at index `floor(u * |arr|)`, or `undefined`
   * (here `None`) when the array is empty.
   */
  function Pick<T>(xs: seq<T>, u: Draw): (r: Option<T>)
    ensures r.Some? <==> |xs| > 0
    ensures r.Some? ==> r.value in xs
  {
    if |xs| == 0 then None else Some(xs[PickIndex(|xs|, u)])
  }

  /** Every element of a non-empty array is picked by some draw. */
  lemma PickReachesEveryIndex<T>(xs: seq<T>, i: nat)
    requires i < |xs|
    ensures var u: Draw := i as real / |xs| as real; Pick(xs, u) == Some(xs[i])
  {
    var n := |xs| as real;
    var u: Draw := i as real / n;
    assert u * n == i as real;
    assert PickIndex(|xs|, u) == i;
  }
}
