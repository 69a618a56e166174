/**
 The damage meter's mutable objects. Each method is specified by its effect on the
 object's value (FightValues); the sweep caches below never show through that value.
 */
module Fights {
  import opened Options
  import opened BestWindow
  import V = FightValues

  ghost predicate Totals(hits: seq<Hit>, total: int, highest: int) {
    total == Sum(hits, 0, |hits|) && highest == Highest(hits)
  }

  /** A cache that has seen `n` hits under `span` holds what sweeping them leaves behind. */
  ghost predicate Cached(hits: seq<Hit>, span: Option<int>, n: nat, left: nat, sum: int, best: int) {
    match span
    case None => n == 0 && best == 0
    case Some(w) => Swept(hits, n, w, left, sum, best)
  }

  lemma AppendTotals(hits: seq<Hit>, total: int, highest: int, hit: Hit)
    requires Totals(hits, total, highest)
    ensures Totals(hits + [hit], total + hit.damage, if hit.damage > highest then hit.damage else highest)
  {
    SumLocal(hits, hits + [hit], 0, |hits|);
    assert (hits + [hit])[..|hits|] == hits;
  }

  lemma AppendKeepsCache(hits: seq<Hit>, span: Option<int>, n: nat, left: nat, sum: int, best: int, hit: Hit)
    requires Cached(hits, span, n, left, sum, best)
    ensures Cached(hits + [hit], span, n, left, sum, best)
  {
    if span.Some? { SweepLocal(hits, hits + [hit], n, span.value); }
  }

  /** One attacker's damage against one target. */
  class FightEntity {
    ghost const home: nat  // the id of the fight this row belongs to
    const key: string
    const attackerName: string
    const startTime: int
    var deathTime: Option<int>
    var level: Option<int>
    var hits: seq<Hit>
    var totalDamage: int
    var highestHit: int
    var trailingDamage: int
    var bestWindowDamage: int
    var trailingWindow: int
    // The best-window cache: how many hits it has seen, under which span, and the
    // window that ends at the newest of them.
    var bestWindowHits: nat
    var bestWindowSpan: Option<int>
    var bestLeft: nat
    var bestSum: int

    // What this row stands for.
    ghost var value: V.Entity

    ghost predicate Valid()
      reads this
    {
      && value == V.Entity(key, attackerName, startTime, deathTime, level, hits, trailingDamage, bestWindowDamage,
           trailingWindow)
      && Totals(hits, totalDamage, highestHit)
      && Cached(hits, bestWindowSpan, bestWindowHits, bestLeft, bestSum, bestWindowDamage)
    }

    constructor (ghost home: nat, key: string, attackerName: string, startTime: int, trailingWindow: int)
      ensures Valid() && this.home == home
      ensures value == V.NewEntity(key, attackerName, startTime, trailingWindow)
    {
      this.home := home;
      this.key, this.attackerName, this.startTime, this.trailingWindow := key, attackerName, startTime, trailingWindow;
      deathTime, level, hits := None, None, [];
      totalDamage, highestHit, trailingDamage, bestWindowDamage := 0, 0, 0, 0;
      bestWindowHits, bestWindowSpan, bestLeft, bestSum := 0, None, 0, 0;
      value := V.NewEntity(key, attackerName, startTime, trailingWindow);
    }

    method AddDamage(at: int, damage: int)
      requires Valid()
      modifies this
      ensures Valid() && value == V.AddHit(old(value), at, damage)
    {
      AppendTotals(hits, totalDamage, highestHit, Hit(at, damage));
      AppendKeepsCache(hits, bestWindowSpan, bestWindowHits, bestLeft, bestSum, bestWindowDamage, Hit(at, damage));
      hits := hits + [Hit(at, damage)];
      value := value.(hits := hits);
      totalDamage := totalDamage + damage;
      if damage > highestHit { highestHit := damage; }
      UpdateTrailing(at, None);
    }

    /** A live row follows the configured window; a slain one keeps the one it froze under. */
    method FollowWindow(window: int)
      requires Valid()
      modifies this`trailingWindow, this`value
      ensures Valid() && value == V.FollowWindow(old(value), window)
    {
      if deathTime.None? { trailingWindow, value := window, value.(window := window); }
    }

    method UpdateLevel(guess: Option<int>)
      requires Valid()
      modifies this`level, this`value
      ensures Valid() && value == V.RaiseLevel(old(value), guess)
    {
      if guess.Some? && (level.None? || guess.value > level.value) { level := guess; }
      value := V.RaiseLevel(value, guess);
    }

    /** Freeze the row. */
    method Die(when: int)
      requires Valid()
      modifies this`deathTime, this`value
      ensures Valid() && value == V.Die(old(value), when)
    {
      if deathTime.None? { deathTime := Some(when); }
      value := V.Die(value, when);
    }

    method UpdateTrailing(now: int, window: Option<int>)
      requires Valid()
      modifies this
      ensures Valid() && value == V.Refresh(old(value), now, window)
    {
      hide Totals, Cached, Trailing, Best;
      if deathTime.Some? { return; }
      if window.Some? { trailingWindow := window.value; }
      value := value.(window := trailingWindow);
      if hits == [] { return; }
      trailingDamage := TrailingSum(hits, now - trailingWindow);
      value := value.(trailing := trailingDamage);
      UpdateBestWindow();
    }

    /** Resume the sweep for one appended hit, skip it when nothing moved, and measure
        again otherwise: the outcome is the same full measurement in every case. */
    method UpdateBestWindow()
      requires Valid() && hits != []
      modifies this`bestWindowDamage, this`bestWindowHits, this`bestWindowSpan, this`bestLeft, this`bestSum, this`value
      ensures Valid() && value == old(value).(best := bestWindowDamage)
      ensures bestWindowSpan == Some(trailingWindow) && bestWindowHits == |hits|
      ensures bestWindowDamage == Best(hits, |hits|, trailingWindow)
    {
      var window, count := trailingWindow, |hits|;
      if count == bestWindowHits && bestWindowSpan == Some(window) { return; }
      if bestWindowSpan != Some(window) || count != bestWindowHits + 1 {
        RescanBestWindow();
        return;
      }
      bestLeft, bestSum, bestWindowDamage := TakeNewest(hits, window, bestLeft, bestSum, bestWindowDamage);
      bestWindowHits, value := count, value.(best := bestWindowDamage);
    }

    /** Measure the whole hit list again. A best taken under the same span is carried in. */
    method RescanBestWindow()
      requires Valid() && hits != []
      modifies this`bestWindowDamage, this`bestWindowHits, this`bestWindowSpan, this`bestLeft, this`bestSum, this`value
      ensures Valid() && value == old(value).(best := bestWindowDamage)
      ensures bestWindowSpan == Some(trailingWindow) && bestWindowHits == |hits|
      ensures bestWindowDamage == Best(hits, |hits|, trailingWindow)
    {
      var window, carried := trailingWindow, bestWindowDamage;
      ghost var seen := bestWindowHits;
      if bestWindowSpan != Some(window) {
        carried, seen := 0, 0;
      }
      var left, windowSum, best := MeasureAll(hits, window, carried, seen);
      bestWindowSpan, bestWindowHits := Some(window), |hits|;
      bestLeft, bestSum, bestWindowDamage, value := left, windowSum, best, value.(best := best);
    }
  }

  /** The backwards walk over the newest hits. */
  method TrailingSum(hits: seq<Hit>, cutoff: int) returns (total: int)
    ensures total == Trailing(hits, cutoff)
  {
    total := 0;
    var i := |hits|;
    assert hits[..i] == hits;
    while i > 0 && hits[i - 1].at >= cutoff
      invariant 0 <= i <= |hits|
      invariant Trailing(hits, cutoff) == Trailing(hits[..i], cutoff) + total
    {
      assert hits[..i][..i - 1] == hits[..i - 1];
      total, i := total + hits[i - 1].damage, i - 1;
    }
  }

  /** The loop both update paths share: shed the hits that fell out of the window. */
  method DropBack(hits: seq<Hit>, from: nat, right: nat, window: int, sum: int) returns (left: nat, windowSum: int)
    requires from <= right < |hits| && sum == Sum(hits, from, right + 1)
    ensures left == LeftEdge(hits, from, right, window)
    ensures windowSum == Sum(hits, left, right + 1)
  {
    left, windowSum := from, sum;
    while left < right && hits[right].at - hits[left].at >= window
      invariant from <= left <= right
      invariant LeftEdge(hits, left, right, window) == LeftEdge(hits, from, right, window)
      invariant windowSum == Sum(hits, left, right + 1)
    {
      DropOne(hits, left, right, window);
      windowSum, left := windowSum - hits[left].damage, left + 1;
    }
  }

  /** Take the newest hit into a sweep of all the others. */
  method TakeNewest(hits: seq<Hit>, window: int, from: nat, sum: int, carried: int)
    returns (left: nat, windowSum: int, best: int)
    requires hits != [] && Swept(hits, |hits| - 1, window, from, sum, carried)
    ensures Swept(hits, |hits|, window, left, windowSum, best)
  {
    hide Swept;
    var newest := |hits| - 1;
    BeforeNext(hits, newest, window, from, sum, carried);
    left, windowSum := DropBack(hits, from, newest, window, sum + hits[newest].damage);
    SweepOn(hits, newest, window, from, sum, carried, left, windowSum);
    best := if windowSum > carried then windowSum else carried;
  }

  /** Sweep the whole list, starting from the best of its first `seen` hits. */
  method MeasureAll(hits: seq<Hit>, window: int, carried: int, ghost seen: nat)
    returns (left: nat, windowSum: int, best: int)
    requires seen <= |hits| && carried == Best(hits, seen, window)
    ensures Swept(hits, |hits|, window, left, windowSum, best)
  {
    best, windowSum, left := carried, 0, 0;
    ghost var swept := 0;
    assert Swept(hits, 0, window, 0, 0, 0);
    BestGrows(hits, 0, seen, window);
    hide Swept, Best;
    for right := 0 to |hits|
      invariant Swept(hits, right, window, left, windowSum, swept)
      invariant best == if swept > carried then swept else carried
    {
      ghost var from, before := left, windowSum;
      BeforeNext(hits, right, window, left, windowSum, swept);
      left, windowSum := DropBack(hits, left, right, window, windowSum + hits[right].damage);
      SweepOn(hits, right, window, from, before, swept, left, windowSum);
      swept := if windowSum > swept then windowSum else swept;
      if windowSum > best { best := windowSum; }
    }
    CarriedIsNoMore(hits, seen, window, left, windowSum, swept);
  }
}
