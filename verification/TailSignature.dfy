/** How much of a file the tail remembers, and what that is enough to notice. */
module TailSignature {
  import opened TailValues

  function Least(a: nat, b: nat): nat { if a < b then a else b }

  /** The tail remembers the last 64 bytes it has passed since `base`, or all of them. */
  ghost predicate Remembers(t: Tail, base: nat) {
    base <= t.position && |t.signature| == Least(64, t.position - base)
  }

  /** A poll that reads anything leaves at least that much of the file's end remembered, up to
      64 bytes, whatever the tail remembered before. */
  lemma PollRemembersItsData(t: Tail, file: seq<byte>)
    requires |t.signature| <= t.position && News(t, file) != []
    ensures var u := Polled(t, file);
      Agrees(u, file) && u.position == |file| && |u.signature| >= Least(64, |News(t, file)|)
  {
    assert |Polled(t, file).signature| >= Least(64, |News(t, file)|);
    hide Polled, News, LastBytes;
    if Rotated(t, file) {
      StartsOver(t, file);
    } else {
      NoRestartMeansVerified(t, file);
      NoFalseRestart(t, file, []);
      assert file + [] == file;
    }
  }

  /** A poll goes on remembering from where the tail began, or from the top if it starts over. */
  lemma PollRemembers(t: Tail, file: seq<byte>, base: nat)
    requires Remembers(t, base)
    ensures Remembers(Polled(t, file), if Rotated(t, file) then 0 else base)
  {}

  lemma {:induction false} GrowthRemembers(t: Tail, base: nat, file: seq<byte>, files: seq<seq<byte>>)
    requires Agrees(t, file) && Remembers(t, base) && Growing([file] + files)
    ensures var u := PollAll(t, files);
      Remembers(u, base) && Agrees(u, ([file] + files)[|files|]) && u.position >= t.position
  {
    if files != [] {
      var n := |files| - 1;
      var u, prev, last := PollAll(t, files[..n]), ([file] + files)[n], files[n];
      GrowsBefore(file, files);
      GrowthRemembers(t, base, file, files[..n]);
      hide Polled, Rotated, Agrees, News, Growing, Remembers;
      NoFalseRestart(u, prev, last[|prev|..]);
      PollRemembers(u, last, base);
      Inside(u, prev);
    }
  }

  lemma GrowsBefore(file: seq<byte>, files: seq<seq<byte>>)
    requires files != [] && Growing([file] + files)
    ensures var n := |files| - 1;
      var all, prev, last := [file] + files, ([file] + files)[n], files[n];
      && Growing([file] + files[..n]) && ([file] + files[..n])[n] == prev
      && prev <= last && last == prev + last[|prev|..] && all[n + 1] == last
  {
    var n := |files| - 1;
    var all, before := [file] + files, [file] + files[..n];
    assert forall i | 0 <= i < n + 1 :: before[i] == all[i];
    assert all[n + 1] == files[n];
  }

  lemma Inside(t: Tail, file: seq<byte>)
    requires Agrees(t, file)
    ensures t.position <= |file|
  {}

  /** `after` ends before `position`, or differs from `before` somewhere from `from` up to it. */
  ghost predicate Differs(before: seq<byte>, after: seq<byte>, from: nat, position: nat)
    requires position <= |before|
  {
    |after| < position || exists i | from <= i < position :: after[i] != before[i]
  }

  /** Where the last 64 bytes before `position` start, or `base` when it has passed fewer. */
  function Known(base: nat, position: nat): nat { if position > base + 64 then position - 64 else base }

  /** A tail that knows `before` takes `after` for another file exactly when it differs within
      what the tail remembers, or ends before the position. */
  lemma RestartsOnADifference(t: Tail, before: seq<byte>, after: seq<byte>)
    requires Agrees(t, before)
    ensures Rotated(t, after) <==> Differs(before, after, t.position - |t.signature|, t.position)
  {
    Remembered(t, before);
    hide Rotated, Agrees, Differs;
    NoRestartMeansVerified(t, after);
    DiffersInside(before, after, t.position - |t.signature|, t.position);
  }

  lemma Remembered(t: Tail, file: seq<byte>)
    requires Agrees(t, file)
    ensures |t.signature| <= t.position <= |file| && file[t.position - |t.signature|..t.position] == t.signature
  {}

  lemma DiffersInside(before: seq<byte>, after: seq<byte>, from: nat, position: nat)
    requires from <= position <= |before|
    ensures Differs(before, after, from, position) <==>
      |after| < position || after[from..position] != before[from..position]
  {
    if position <= |after| { SameStretch(before, after, from, position); }
  }

  lemma SameStretch(a: seq<byte>, b: seq<byte>, from: nat, to: nat)
    requires from <= to <= |a| && to <= |b|
    ensures b[from..to] == a[from..to] <==> !exists i | from <= i < to :: b[i] != a[i]
  {
    var x, y := a[from..to], b[from..to];
    if x == y {
      forall i | from <= i < to ensures b[i] == a[i] { assert x[i - from] == y[i - from]; }
    }
  }

  /** Starting over, a poll reads all of the file and hands on its whole lines. */
  lemma StartsOver(t: Tail, file: seq<byte>)
    requires Rotated(t, file)
    ensures CaughtUp(Polled(t, file), 0, file, Yielded(t, file))
    ensures Polled(t, file).position == |file|
  {
    NothingCaughtUp();
    LikeAFreshTail(t, file);
    hide CaughtUp, Rotated, Polled, Yielded;
    PollCatchesUp(TOP, 0, [], [], file);
    assert [] + file == file && [] + Yielded(TOP, file) == Yielded(TOP, file);
  }

  lemma LikeAFreshTail(t: Tail, file: seq<byte>)
    requires Rotated(t, file)
    ensures Polled(t, file) == Polled(TOP, file) && Yielded(t, file) == Yielded(TOP, file)
  {
    hide Rotated, Absorb, Yield;
    assert Resume(t, file) == Resume(TOP, file) == TOP;
  }

  lemma NothingCaughtUp()
    ensures CaughtUp(TOP, 0, [], [])
  {
    var none: seq<byte> := [];
    assert none[0..0] == [];
  }

  /** A log read through any number of polls as it grew, and then emptied and refilled: if what
      is there now ends before the position, or differs from what was read anywhere in the
      last 64 bytes before it, the next poll starts at the top and yields the whole non-blank
      lines of the new file. `base` is where the remembering began. */
  lemma RefillIsNoticed(t: Tail, base: nat, file: seq<byte>, files: seq<seq<byte>>, after: seq<byte>)
    requires Agrees(t, file) && Remembers(t, base) && Growing([file] + files)
    requires var u := PollAll(t, files);
      var last := ([file] + files)[|files|];
      u.position <= |last| && Differs(last, after, Known(base, u.position), u.position)
    ensures var u := PollAll(t, files);
      && Polled(u, after).position == |after|
      && NonBlank(Yielded(u, after)) == WholeLines(after)
      && CaughtUp(Polled(u, after), 0, after, Yielded(u, after))
  {
    hide Polled, Rotated, Yielded, WholeLines, NonBlank;
    GrowthRemembers(t, base, file, files);
    var u := PollAll(t, files);
    RestartsOnADifference(u, ([file] + files)[|files|], after);
    StartsOver(u, after);
    assert after[0..|after|] == after;
  }

  /** A poll that starts over leaves the tail where a fresh one would be. */
  lemma PollRestarts(t: Tail, file: seq<byte>)
    ensures Rotated(t, file) ==>
      && CaughtUp(Polled(t, file), 0, file, Yielded(t, file))
      && Polled(t, file).position == |file| && Remembers(Polled(t, file), 0)
  {
    if Rotated(t, file) {
      StartsOver(t, file);
      assert Polled(t, file) == Absorb(TOP, file);
    }
  }
}
