/**
 The sliding-window measure behind the damage meter: what the two-pointer sweep of
 core/dps.py computes, and why that number is a maximum.

 Times are integers in one fixed unit. A window is half-open: a hit leaves the window
 that ends at `t` once `t - at >= window`. The trailing sum is closed: it keeps
 `at >= cutoff`.
 */
module BestWindow {
  datatype Hit = Hit(at: int, damage: int)

  /** Damage of hits[lo..hi]. */
  function Sum(hits: seq<Hit>, lo: nat, hi: nat): int
    requires lo <= hi <= |hits|
  {
    if lo == hi then 0 else Sum(hits, lo, hi - 1) + hits[hi - 1].damage
  }

  /** The largest hit, never below zero. */
  function Highest(hits: seq<Hit>): (h: nat) {
    if hits == [] then 0
    else
      var rest := Highest(hits[..|hits| - 1]);
      var last := hits[|hits| - 1].damage;
      if last > rest then last else rest
  }

  ghost predicate TimeOrdered(hits: seq<Hit>) {
    forall i, j :: 0 <= i <= j < |hits| ==> hits[i].at <= hits[j].at
  }

  ghost predicate NonNegative(hits: seq<Hit>) {
    forall i :: 0 <= i < |hits| ==> hits[i].damage >= 0
  }

  lemma {:induction false} SumLocal(old_: seq<Hit>, new_: seq<Hit>, lo: nat, hi: nat)
    requires lo <= hi <= |old_| && old_ <= new_
    ensures Sum(old_, lo, hi) == Sum(new_, lo, hi)
  {
    if lo < hi { SumLocal(old_, new_, lo, hi - 1); }
  }

  lemma {:induction false} SumSplit(hits: seq<Hit>, lo: nat, mid: nat, hi: nat)
    requires lo <= mid <= hi <= |hits|
    ensures Sum(hits, lo, hi) == Sum(hits, lo, mid) + Sum(hits, mid, hi)
  {
    if mid < hi { SumSplit(hits, lo, mid, hi - 1); }
  }

  // -- the sweep ---------------------------------------------------------------

  /** Drop hits off the back of the window ending at `right`, never past `right` itself. */
  function LeftEdge(hits: seq<Hit>, left: nat, right: nat, window: int): (edge: nat)
    requires left <= right < |hits|
    ensures left <= edge <= right
    ensures edge < right ==> hits[right].at - hits[edge].at < window
    ensures forall i :: left <= i < edge ==> hits[right].at - hits[i].at >= window
    decreases right - left
  {
    if left < right && hits[right].at - hits[left].at >= window
    then LeftEdge(hits, left + 1, right, window)
    else left
  }

  /** Left pointer after sweeping the first `n` hits: how many have been dropped so far. */
  function Left(hits: seq<Hit>, n: nat, window: int): (left: nat)
    requires n <= |hits|
    ensures left <= n && (n > 0 ==> left < n)
  {
    if n == 0 then 0 else LeftEdge(hits, Left(hits, n - 1, window), n - 1, window)
  }

  /** The pointer only moves right, so sweeping on from hit `m` to hit `n` drops at most
      `n` hits in all, however the drops are spread over the individual updates. */
  lemma {:induction false} DropsAreBounded(hits: seq<Hit>, m: nat, n: nat, window: int)
    requires m <= n <= |hits|
    ensures 0 <= Left(hits, n, window) - Left(hits, m, window) <= n
  {
    if m < n { DropsAreBounded(hits, m, n - 1, window); }
  }

  /** Damage of the window that ends at hit `n - 1`. */
  function WindowSum(hits: seq<Hit>, n: nat, window: int): int
    requires n <= |hits|
  {
    Sum(hits, Left(hits, n, window), n)
  }

  /** The best window over the first `n` hits, measured from scratch. */
  function Best(hits: seq<Hit>, n: nat, window: int): int
    requires n <= |hits|
  {
    if n == 0 then 0
    else
      var before := Best(hits, n - 1, window);
      var here := WindowSum(hits, n, window);
      if here > before then here else before
  }

  lemma {:induction false} LeftLocal(old_: seq<Hit>, new_: seq<Hit>, n: nat, window: int)
    requires n <= |old_| && old_ <= new_
    ensures Left(old_, n, window) == Left(new_, n, window)
  {
    hide LeftEdge;
    if n > 0 {
      LeftLocal(old_, new_, n - 1, window);
      EdgeLocal(old_, new_, Left(old_, n - 1, window), n - 1, window);
    }
  }

  lemma {:induction false} SweepLocal(old_: seq<Hit>, new_: seq<Hit>, n: nat, window: int)
    requires n <= |old_| && old_ <= new_
    ensures Left(old_, n, window) == Left(new_, n, window)
    ensures WindowSum(old_, n, window) == WindowSum(new_, n, window)
    ensures Best(old_, n, window) == Best(new_, n, window)
  {
    hide Left, Sum;
    LeftLocal(old_, new_, n, window);
    SumLocal(old_, new_, Left(old_, n, window), n);
    if n > 0 { SweepLocal(old_, new_, n - 1, window); }
  }

  lemma {:induction false} EdgeLocal(old_: seq<Hit>, new_: seq<Hit>, left: nat, right: nat, window: int)
    requires left <= right < |old_| && old_ <= new_
    ensures LeftEdge(old_, left, right, window) == LeftEdge(new_, left, right, window)
    decreases right - left
  {
    if left < right { EdgeLocal(old_, new_, left + 1, right, window); }
  }

  lemma {:induction false} BestGrows(hits: seq<Hit>, m: nat, n: nat, window: int)
    requires m <= n <= |hits|
    ensures Best(hits, m, window) <= Best(hits, n, window)
  {
    if m < n { BestGrows(hits, m, n - 1, window); }
  }

  /** One hit dropped off the back: the edge is still ahead, the window that much lighter. */
  lemma DropOne(hits: seq<Hit>, left: nat, right: nat, window: int)
    requires left < right < |hits| && hits[right].at - hits[left].at >= window
    ensures LeftEdge(hits, left, right, window) == LeftEdge(hits, left + 1, right, window)
    ensures Sum(hits, left, right + 1) == hits[left].damage + Sum(hits, left + 1, right + 1)
  {
    SumSplit(hits, left, left + 1, right + 1);
    assert Sum(hits, left, left + 1) == Sum(hits, left, left) + hits[left].damage;
  }

  /** A sweep of the first `n` hits under `span` left these three numbers behind. */
  ghost predicate Swept(hits: seq<Hit>, n: nat, span: int, left: nat, sum: int, best: int) {
    && n <= |hits|
    && left == Left(hits, n, span)
    && sum == WindowSum(hits, n, span)
    && best == Best(hits, n, span)
  }

  /** What the sweep hands to the next hit. */
  lemma BeforeNext(hits: seq<Hit>, n: nat, span: int, left: nat, sum: int, best: int)
    requires n < |hits| && Swept(hits, n, span, left, sum, best)
    ensures left <= n && sum + hits[n].damage == Sum(hits, left, n + 1)
  {}

  /** Taking hit `n` into a sweep of the hits before it. */
  lemma SweepOn(hits: seq<Hit>, n: nat, span: int, from: nat, sum: int, best: int, left: nat, windowSum: int)
    requires n < |hits| && Swept(hits, n, span, from, sum, best) && from <= n
    requires left == LeftEdge(hits, from, n, span) && windowSum == Sum(hits, left, n + 1)
    ensures Swept(hits, n + 1, span, left, windowSum, if windowSum > best then windowSum else best)
  {}

  /** A best carried in from a shorter sweep cannot exceed the full one. */
  lemma CarriedIsNoMore(hits: seq<Hit>, seen: nat, span: int, left: nat, sum: int, best: int)
    requires seen <= |hits| && Swept(hits, |hits|, span, left, sum, best)
    ensures Best(hits, seen, span) <= best
  {
    BestGrows(hits, seen, |hits|, span);
  }

  // -- the sweep finds the maximum -----------------------------------------------

  /** hits[i..j+1] fits in one window. */
  ghost predicate Fits(hits: seq<Hit>, i: int, j: int, window: int) {
    0 <= i <= j < |hits| && hits[j].at - hits[i].at < window
  }

  /** `best` is the largest damage any run of hits inside one window adds up to. */
  ghost predicate IsBestWindow(hits: seq<Hit>, window: int, best: int) {
    && (forall i, j :: Fits(hits, i, j, window) ==> Sum(hits, i, j + 1) <= best)
    && (if hits == [] then best == 0
        else exists i, j :: Fits(hits, i, j, window) && Sum(hits, i, j + 1) == best)
  }

  lemma {:induction false} SumNonNegative(hits: seq<Hit>, lo: nat, hi: nat)
    requires lo <= hi <= |hits| && NonNegative(hits)
    ensures Sum(hits, lo, hi) >= 0
  {
    if lo < hi { SumNonNegative(hits, lo, hi - 1); }
  }

  /** Everything behind the left pointer is outside the window ending at hit n - 1. */
  lemma {:induction false} BehindLeft(hits: seq<Hit>, n: nat, window: int, i: nat)
    requires TimeOrdered(hits) && 0 < n <= |hits| && i < Left(hits, n, window)
    ensures hits[n - 1].at - hits[i].at >= window
  {
    if n > 1 && i < Left(hits, n - 1, window) { BehindLeft(hits, n - 1, window, i); }
  }

  lemma BestBounds(hits: seq<Hit>, n: nat, window: int, i: nat, j: nat)
    requires TimeOrdered(hits) && NonNegative(hits) && n <= |hits|
    requires Fits(hits, i, j, window) && j < n
    ensures Sum(hits, i, j + 1) <= Best(hits, n, window)
  {
    hide Sum, Best, Left, TimeOrdered, NonNegative;
    var left := Left(hits, j + 1, window);
    assert left <= i by {
      if i < left { BehindLeft(hits, j + 1, window, i); }
    }
    HereIsNoMore(hits, j + 1, window);
    BestGrows(hits, j + 1, n, window);
    SumSplit(hits, left, i, j + 1);
    SumNonNegative(hits, left, i);
  }

  lemma HereIsNoMore(hits: seq<Hit>, n: nat, window: int)
    requires 0 < n <= |hits|
    ensures Sum(hits, Left(hits, n, window), n) <= Best(hits, n, window)
  {
    hide Sum, Left;
  }

  lemma {:induction false} BestReached(hits: seq<Hit>, n: nat, window: int) returns (i: nat, j: nat)
    requires NonNegative(hits) && 0 < n <= |hits| && window > 0
    ensures Fits(hits, i, j, window) && Sum(hits, i, j + 1) == Best(hits, n, window)
  {
    if n > 1 && Best(hits, n, window) == Best(hits, n - 1, window) {
      i, j := BestReached(hits, n - 1, window);
    } else {
      i, j := Left(hits, n, window), n - 1;
      SumNonNegative(hits, i, n);
    }
  }

  /** For time-ordered, non-negative hits and a positive window, the two-pointer sweep
      is the brute-force maximum over all runs that fit in one window. */
  lemma BestIsMaximum(hits: seq<Hit>, window: int)
    requires TimeOrdered(hits) && NonNegative(hits) && window > 0
    ensures IsBestWindow(hits, window, Best(hits, |hits|, window))
  {
    var best := Best(hits, |hits|, window);
    forall i, j | Fits(hits, i, j, window) ensures Sum(hits, i, j + 1) <= best {
      BestBounds(hits, |hits|, window, i, j);
    }
    if hits != [] {
      var i, j := BestReached(hits, |hits|, window);
    }
  }

  /** Time order is needed: a late-arriving early stamp pushes the pointer past a hit
      that a later window would have wanted back. */
  lemma UnorderedHitsMissTheMaximum()
    ensures var hits := [Hit(0, 5), Hit(100, 1), Hit(0, 5)];
            NonNegative(hits) && !IsBestWindow(hits, 12, Best(hits, |hits|, 12))
  {
    var hits := [Hit(0, 5), Hit(100, 1), Hit(0, 5)];
    assert Fits(hits, 0, 0, 12);
    assert Left(hits, 1, 12) == 0;
    assert Left(hits, 2, 12) == 1;
    assert Left(hits, 3, 12) == 1;
    assert WindowSum(hits, 1, 12) == 5;
    assert WindowSum(hits, 2, 12) == 1;
    assert WindowSum(hits, 3, 12) == 6;
    assert Fits(hits, 0, 2, 12);
    assert Sum(hits, 0, 3) == Sum(hits, 0, 2) + 5 == 11;
    assert Best(hits, 3, 12) == 6;
  }

  // -- the trailing sum ------------------------------------------------------------

  /** What the backwards walk adds up: newest first, stopping at the first older hit. */
  function Trailing(hits: seq<Hit>, cutoff: int): int {
    if hits == [] then 0
    else
      var last := hits[|hits| - 1];
      if last.at < cutoff then 0 else Trailing(hits[..|hits| - 1], cutoff) + last.damage
  }

  /** All damage at or after the cutoff, wherever it sits in the list. */
  function Since(hits: seq<Hit>, cutoff: int): int {
    if hits == [] then 0
    else
      var last := hits[|hits| - 1];
      Since(hits[..|hits| - 1], cutoff) + (if last.at >= cutoff then last.damage else 0)
  }

  lemma {:induction false} TrailingIsSince(hits: seq<Hit>, cutoff: int)
    requires TimeOrdered(hits)
    ensures Trailing(hits, cutoff) == Since(hits, cutoff)
  {
    if hits != [] {
      var rest := hits[..|hits| - 1];
      TrailingIsSince(rest, cutoff);
      if hits[|hits| - 1].at < cutoff { NothingSince(rest, cutoff); }
    }
  }

  lemma {:induction false} NothingSince(hits: seq<Hit>, cutoff: int)
    requires forall i :: 0 <= i < |hits| ==> hits[i].at < cutoff
    ensures Since(hits, cutoff) == 0
  {
    if hits != [] { NothingSince(hits[..|hits| - 1], cutoff); }
  }
}
