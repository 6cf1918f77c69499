/**
 * The asset catalogue of script.js: `BASE` lists the image assets
 * `assets/memory-1.png` … `assets/memory-37.png` followed by the video
 * assets `assets/memory-38.mp4` … `assets/memory-44.mp4`, and `FRAGMENTS`
 * is `MULTIPLIER` copies of `BASE`, one after the other.
 */
module Catalogue {

  const ImageCount: nat := 37
  const VideoStart: nat := 38
  const VideoEnd: nat := 44
  const Multiplier: nat := 2

  datatype Kind = Image | Video

  /** An entry `{type, src}`; the path `assets/memory-<index>.<png|mp4>` is abstracted to its kind and index. */
  datatype Item = Item(kind: Kind, index: nat)

  /** The number of entries `BASE` is meant to hold: the images plus the inclusive video range. */
  const BaseCount: nat := ImageCount + (VideoEnd - VideoStart + 1)

  /** The entries one `for (let i = lo; i <= hi; i++)` loop pushes, in loop order. */
  function Range(kind: Kind, lo: nat, hi: nat): (r: seq<Item>)
    ensures |r| == if lo <= hi then hi + 1 - lo else 0
  {
    var n := if lo <= hi then hi + 1 - lo else 0;
    seq(n, j requires 0 <= j < n => Item(kind, lo + j))
  }

  /** `BASE`: the image loop followed by the video loop. */
  function Base(): (r: seq<Item>)
    ensures |r| == BaseCount == 44
    ensures forall k :: 0 <= k < ImageCount ==> r[k] == Item(Image, k + 1)
    ensures forall k :: ImageCount <= k < |r| ==> r[k] == Item(Video, k + 1)
  {
    Range(Image, 1, ImageCount) + Range(Video, VideoStart, VideoEnd)
  }

  /** The (kind, index) pair of an entry determines its position in `BASE`: no asset is listed twice. */
  lemma BaseDistinct(j: nat, k: nat)
    requires j < k < |Base()|
    ensures Base()[j] != Base()[k]
  {
  }

  /** An item is in `BASE` exactly when its index is 1..44 and its kind matches the index range. */
  lemma BaseMembership(it: Item)
    ensures it in Base() <==>
      (1 <= it.index <= ImageCount && it.kind == Image) ||
      (VideoStart <= it.index <= VideoEnd && it.kind == Video)
  {
    var b := Base();
    if 1 <= it.index <= VideoEnd {
      assert b[it.index - 1].index == it.index;
    }
  }

  /** `m` copies of `xs` one after the other: the `for (m …) BASE.forEach(push)` loop. */
  function Repeat<T>(xs: seq<T>, m: nat): (r: seq<T>)
    ensures |r| == m * |xs|
    ensures forall k :: 0 <= k < |r| ==> r[k] == xs[k % |xs|]
  {
    if m == 0 then []
    else
      var prev := Repeat(xs, m - 1);
      var r := prev + xs;
      assert |r| == m * |xs| by { MulPred(m, |xs|); }
      forall k | 0 <= k < |r|
        ensures r[k] == xs[k % |xs|]
      {
        if k >= |prev| {
          ModOfLastBlock(k, m - 1, |xs|);
        }
      }
      r
  }

  lemma MulPred(m: nat, n: nat)
    requires m > 0
    ensures m * n == (m - 1) * n + n
  {
  }

  /** An index in the block that follows `a` whole blocks of width `n` has its offset as remainder. */
  lemma ModOfLastBlock(k: int, a: nat, n: nat)
    requires n > 0 && a * n <= k < a * n + n
    ensures k % n == k - a * n
  {
    var j := k - a * n;
    assert k == a * n + j && 0 <= j < n;
    LemmaModUnique(k, n, a, j);
  }

  lemma LemmaModUnique(k: int, n: int, q: int, j: int)
    requires n > 0 && 0 <= j < n && k == q * n + j
    ensures k % n == j
  {
    var q', j' := k / n, k % n;
    assert k == q' * n + j';
    if q' < q {
      assert (q - q') * n >= n by { MulAtLeast(q - q', n); }
      assert false;
    } else if q' > q {
      assert (q' - q) * n >= n by { MulAtLeast(q' - q, n); }
      assert false;
    }
  }

  lemma MulAtLeast(c: int, n: int)
    requires c >= 1 && n > 0
    ensures c * n >= n
  {
  }

  /**
   * `FRAGMENTS`: `MULTIPLIER` copies of `BASE`. It has `MULTIPLIER * |BASE|`
   * entries, and entry k repeats `BASE[k mod |BASE|]`.
   */
  function Fragments(): (r: seq<Item>)
    ensures |r| == Multiplier * BaseCount == 88
    ensures forall k :: 0 <= k < |r| ==> r[k] == Base()[k % BaseCount]
  {
    Repeat(Base(), Multiplier)
  }

  /** With `MULTIPLIER` at 2, the catalogue is the asset list followed by itself. */
  lemma FragmentsAreTwoCopies()
    ensures Fragments() == Base() + Base()
  {
    var b := Base();
    RepeatStep(b, 0);
    RepeatStep(b, 1);
    assert Repeat(b, 1) == b;
  }

  lemma CountAppend<T>(a: seq<T>, b: seq<T>, x: T)
    ensures multiset(a + b)[x] == multiset(a)[x] + multiset(b)[x]
  {
    assert multiset(a + b) == multiset(a) + multiset(b);
  }

  lemma RepeatStep<T>(xs: seq<T>, m: nat)
    ensures Repeat(xs, m + 1) == Repeat(xs, m) + xs
  {
  }

  /** Every asset occurs exactly `MULTIPLIER` times in `FRAGMENTS`, and nothing else occurs. */
  lemma FragmentCounts(it: Item)
    ensures it in Base() ==> multiset(Fragments())[it] == Multiplier
    ensures it !in Base() ==> multiset(Fragments())[it] == 0
  {
    FragmentsAreTwoCopies();
    CountAppend(Base(), Base(), it);
    if it in Base() {
      BaseCountsOnce(it);
    }
  }

  /** No element occurs twice. */
  ghost predicate Distinct<T>(xs: seq<T>)
  {
    forall i, j :: 0 <= i < j < |xs| ==> xs[i] != xs[j]
  }

  /** In a sequence without repetitions each element occurs once. */
  lemma {:induction false} DistinctCountsOnce<T>(xs: seq<T>, x: T)
    requires Distinct(xs) && x in xs
    ensures multiset(xs)[x] == 1
  {
    var n := |xs|;
    var init, last := xs[..n - 1], xs[n - 1];
    assert xs == init + [last];
    assert Distinct(init);
    if x == last {
      assert x !in init;
    } else {
      DistinctCountsOnce(init, x);
    }
  }

  /** An element of `BASE` occurs in it exactly once. */
  lemma BaseCountsOnce(it: Item)
    requires it in Base()
    ensures multiset(Base())[it] == 1
  {
    forall i, j | 0 <= i < j < |Base()| ensures Base()[i] != Base()[j] {
      BaseDistinct(i, j);
    }
    DistinctCountsOnce(Base(), it);
  }
}
