/**
 * `FRAGMENTS.sort(() => Math.random() - 0.5)`: a sort whose comparator
 * ignores its arguments and answers with a fresh draw. The order it produces
 * depends on the engine's sorting algorithm; here the sort is an insertion
 * sort in which every comparison consumes one draw. Whatever the draws, the
 * result is a permutation of the input.
 */
module Shuffle {
  import opened Random

  /** The comparator's answer for one draw: positive means "the left element goes after the right one". */
  function Compare(u: Draw): (c: real)
    ensures -0.5 <= c < 0.5
  {
    u - 0.5
  }

  datatype Sorted<T> = Sorted(items: seq<T>, rng: Rng)

  /**
   * Inserts `x` into `s` from the right: while the comparator says the
   * element before the gap goes after `x`, the gap moves left.
   */
  function InsertBack<T>(s: seq<T>, x: T, g: Rng): (r: Sorted<T>)
    ensures multiset(r.items) == multiset(s) + multiset{x}
    ensures r.rng.draw == g.draw && g.pos <= r.rng.pos <= g.pos + |s|
    decreases |s|
  {
    if |s| == 0 then Sorted([x], g)
    else
      var (u, g') := Next(g);
      var init, last := s[..|s| - 1], s[|s| - 1];
      assert s == init + [last];
      if Compare(u) > 0.0 then
        var placed := InsertBack(init, x, g');
        Sorted(placed.items + [last], placed.rng)
      else
        Sorted(s + [x], g')
  }

  /** Sorts `xs` by inserting its elements one after the other, in array order. */
  function SortBy<T>(xs: seq<T>, g: Rng): (r: Sorted<T>)
    ensures multiset(r.items) == multiset(xs)
    ensures |r.items| == |xs|
    ensures r.rng.draw == g.draw && g.pos <= r.rng.pos
    decreases |xs|
  {
    if |xs| == 0 then Sorted([], g)
    else
      var init, last := xs[..|xs| - 1], xs[|xs| - 1];
      assert xs == init + [last];
      var prefix := SortBy(init, g);
      InsertBack(prefix.items, last, prefix.rng)
  }

  /** Nothing is lost or duplicated: every value occurs as often after the sort as before. */
  lemma SortPreservesCounts<T>(xs: seq<T>, g: Rng, x: T)
    ensures multiset(SortBy(xs, g).items)[x] == multiset(xs)[x]
    ensures x in SortBy(xs, g).items <==> x in xs
  {
    var ys := SortBy(xs, g).items;
    assert multiset(ys) == multiset(xs);
    assert x in ys <==> x in multiset(ys);
    assert x in xs <==> x in multiset(xs);
  }

  /** A comparator that always answers "keep" (draws below one half) leaves the order unchanged. */
  lemma {:induction false} KeepingDrawsLeaveOrder<T>(xs: seq<T>, g: Rng)
    requires forall k :: g.pos <= k ==> g.draw(k) <= 0.5
    ensures SortBy(xs, g).items == xs
  {
    if |xs| > 0 {
      var init := xs[..|xs| - 1];
      assert xs == init + [xs[|xs| - 1]];
      KeepingDrawsLeaveOrder(init, g);
    }
  }
}
