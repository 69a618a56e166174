/**
 The log tail: a read position in a growing file, the unfinished last line, and a short
 signature of the bytes just before the position. Files are byte sequences; decoding a
 line is left to its reader.
 */
module TailValues {

  newtype byte = x: int | 0 <= x < 256

  const LF: byte := 10
  const CR: byte := 13
  const SIGNATURE_BYTES: nat := 64

  // -- lines ---------------------------------------------------------------------------------

  predicate IsBlankByte(b: byte) { b == 32 || 9 <= b <= 13 }

  predicate Blank(line: seq<byte>) { forall b | b in line :: IsBlankByte(b) }

  /** Position of the first line break, or |data|. */
  function Break(data: seq<byte>): (k: nat)
    ensures k <= |data|
    ensures k < |data| ==> data[k] == LF || data[k] == CR
    ensures forall i | 0 <= i < k :: data[i] != LF && data[i] != CR
  {
    if data == [] || data[0] == LF || data[0] == CR then 0 else 1 + Break(data[1..])
  }

  /** Where the line after the break at `k` begins: CR LF is one break. */
  function AfterBreak(data: seq<byte>, k: nat): (n: nat)
    requires k < |data|
    ensures k < n <= |data|
  {
    if data[k] == CR && k + 1 < |data| && data[k + 1] == LF then k + 2 else k + 1
  }

  /** Lines without their breaks; a last line need not be terminated. */
  function SplitLines(data: seq<byte>): seq<seq<byte>>
    decreases |data|
  {
    if data == [] then []
    else
      var k := Break(data);
      if k == |data| then [data] else [data[..k]] + SplitLines(data[AfterBreak(data, k)..])
  }

  function NonBlank(lines: seq<seq<byte>>): seq<seq<byte>> {
    if lines == [] then []
    else if Blank(lines[0]) then NonBlank(lines[1..])
    else [lines[0]] + NonBlank(lines[1..])
  }

  function NonEmpty(lines: seq<seq<byte>>): seq<seq<byte>> {
    if lines == [] then []
    else if lines[0] == [] then NonEmpty(lines[1..])
    else [lines[0]] + NonEmpty(lines[1..])
  }

  lemma {:induction false} NonBlankAppend(xs: seq<seq<byte>>, ys: seq<seq<byte>>)
    ensures NonBlank(xs + ys) == NonBlank(xs) + NonBlank(ys)
  {
    if xs == [] {
      assert xs + ys == ys;
    } else {
      assert (xs + ys)[1..] == xs[1..] + ys;
      NonBlankAppend(xs[1..], ys);
    }
  }

  lemma {:induction false} DroppingEmptyDropsBlank(lines: seq<seq<byte>>)
    ensures NonBlank(NonEmpty(lines)) == NonBlank(lines)
  {
    if lines != [] {
      DroppingEmptyDropsBlank(lines[1..]);
      if lines[0] != [] {
        assert NonEmpty(lines)[1..] == NonEmpty(lines[1..]);
      }
    }
  }

  /** Bytes up to and including the last LF: what is known to be whole lines. */
  function Complete(data: seq<byte>): (n: nat)
    ensures n <= |data|
    ensures n > 0 ==> data[n - 1] == LF
    ensures forall i | n <= i < |data| :: data[i] != LF
  {
    if data == [] then 0
    else if data[|data| - 1] == LF then |data|
    else Complete(data[..|data| - 1])
  }

  predicate Terminated(data: seq<byte>) { data == [] || data[|data| - 1] == LF }

  /** Cutting after a line feed splits no line, a CR LF pair included. */
  lemma {:induction false} SplitAtLineFeed(a: seq<byte>, b: seq<byte>)
    requires Terminated(a)
    ensures SplitLines(a + b) == SplitLines(a) + SplitLines(b)
    decreases |a|
  {
    if a == [] {
      assert a + b == b;
    } else {
      EndsSomewhere(a);
      hide SplitLines, Break, AfterBreak, Terminated;
      BreakLocal(a, b);
      SameCut(a, b, Break(a));
      FirstLine(a);
      assert Break(a + b) == Break(a) < |a + b|;
      FirstLine(a + b);
      var rest := a[AfterBreak(a, Break(a))..];
      SplitAtLineFeed(rest, b);
      Regrouped([a[..Break(a)]], SplitLines(rest), SplitLines(b));
    }
  }

  lemma Regrouped(xs: seq<seq<byte>>, ys: seq<seq<byte>>, zs: seq<seq<byte>>)
    ensures xs + (ys + zs) == xs + ys + zs
  {}

  lemma EndsSomewhere(a: seq<byte>)
    requires Terminated(a) && a != []
    ensures Break(a) < |a|
  {
    hide Break;
    assert a[|a| - 1] == LF;
  }

  /** The first line of text that ends in a line feed is cut off alike, whatever follows the text. */
  lemma SameCut(a: seq<byte>, b: seq<byte>, k: nat)
    requires Terminated(a) && k < |a|
    ensures var n := AfterBreak(a, k);
      && AfterBreak(a + b, k) == n && (a + b)[..k] == a[..k] && (a + b)[n..] == a[n..] + b && Terminated(a[n..])
  {}

  lemma FirstLine(data: seq<byte>)
    requires Break(data) < |data|
    ensures SplitLines(data) == [data[..Break(data)]] + SplitLines(data[AfterBreak(data, Break(data))..])
  {
    hide Break, AfterBreak;
  }

  lemma {:induction false} BreakLocal(a: seq<byte>, b: seq<byte>)
    requires Break(a) < |a|
    ensures Break(a + b) == Break(a)
  {
    if Break(a) > 0 {
      assert (a + b)[1..] == a[1..] + b;
      BreakLocal(a[1..], b);
    }
  }

  lemma {:induction false} BlankHasNoLines(data: seq<byte>)
    requires Blank(data)
    ensures NonBlank(SplitLines(data)) == []
    decreases |data|
  {
    if data != [] {
      var k := Break(data);
      if k < |data| {
        BlankHasNoLines(data[AfterBreak(data, k)..]);
        assert SplitLines(data)[1..] == SplitLines(data[AfterBreak(data, k)..]);
      } else {
        assert SplitLines(data)[1..] == [];
      }
    }
  }

  /** The meaningful lines of a stream, whatever the reads it arrived in. */
  function WholeLines(stream: seq<byte>): seq<seq<byte>> {
    NonBlank(SplitLines(stream[..Complete(stream)]))
  }

  // -- one read --------------------------------------------------------------------------------

  datatype Tail = Tail(position: nat, partial: seq<byte>, signature: seq<byte>)

  const TOP := Tail(0, [], [])

  function LastBytes(data: seq<byte>, n: nat): (r: seq<byte>)
    ensures |r| == if |data| < n then |data| else n
    ensures r == data[|data| - |r|..]
  {
    if |data| < n then data else data[|data| - n..]
  }

  /** The lines a read hands on: whole lines only, blank ones not always. */
  function Yield(data: seq<byte>): seq<seq<byte>> {
    if data != [] && data[|data| - 1] == LF then NonEmpty(SplitLines(data))
    else
      var whole := data[..Complete(data)];
      if Blank(whole) then [] else NonEmpty(SplitLines(whole))
  }

  lemma YieldIsWholeLines(data: seq<byte>)
    ensures NonBlank(Yield(data)) == WholeLines(data)
  {
    var whole := data[..Complete(data)];
    DroppingEmptyDropsBlank(SplitLines(whole));
    if Blank(whole) { BlankHasNoLines(whole); }
    assert data != [] && data[|data| - 1] == LF ==> whole == data;
  }

  /** Take `data`, read from the position on. */
  function Absorb(t: Tail, data: seq<byte>): Tail {
    if data == [] then t
    else
      var all := t.partial + data;
      Tail(t.position + |data|, all[Complete(all)..], LastBytes(t.signature + data, SIGNATURE_BYTES))
  }

  /** How much of the signature can be read back before the position. */
  function Back(t: Tail): nat {
    if |t.signature| < t.position then |t.signature| else t.position
  }

  /** Not the file this tail left: it is shorter than the position, or the bytes before the
      position are not the ones it remembers. */
  predicate Rotated(t: Tail, file: seq<byte>) {
    || |file| < t.position
    || file[t.position - Back(t)..t.position] != LastBytes(t.signature, Back(t))
  }

  function Resume(t: Tail, file: seq<byte>): (r: Tail)
    ensures r.position <= |file|
  {
    if Rotated(t, file) then TOP else t
  }

  /** What is new to the tail. */
  function News(t: Tail, file: seq<byte>): seq<byte> {
    file[Resume(t, file).position..]
  }

  function Polled(t: Tail, file: seq<byte>): Tail {
    Absorb(Resume(t, file), News(t, file))
  }

  function Yielded(t: Tail, file: seq<byte>): seq<seq<byte>> {
    if News(t, file) == [] then [] else Yield(Resume(t, file).partial + News(t, file))
  }

  // -- the tail's file ---------------------------------------------------------------------------

  /** The tail's position lies in the file and its signature is the bytes just before it. */
  ghost predicate Agrees(t: Tail, file: seq<byte>) {
    && t.position <= |file|
    && |t.signature| <= t.position
    && t.signature == file[t.position - |t.signature|..t.position]
  }

  /** An append-only file is never taken for another one, and a poll reads it to its end. */
  lemma NoFalseRestart(t: Tail, file: seq<byte>, more: seq<byte>)
    requires Agrees(t, file)
    ensures !Rotated(t, file + more)
    ensures News(t, file + more) == (file + more)[t.position..]
    ensures Agrees(Polled(t, file + more), file + more)
    ensures Polled(t, file + more).position == |file + more|
  {
    var grown := file + more;
    assert Back(t) == |t.signature|;
    assert grown[t.position - Back(t)..t.position] == file[t.position - Back(t)..t.position];
    var data := grown[t.position..];
    var u := Polled(t, grown);
    if data != [] {
      assert t.signature + data == grown[t.position - |t.signature|..];
    }
  }

  /** A poll that does not restart has seen the remembered bytes in front of its position. */
  lemma NoRestartMeansVerified(t: Tail, file: seq<byte>)
    requires |t.signature| <= t.position
    ensures !Rotated(t, file) <==>
      t.position <= |file| && file[t.position - |t.signature|..t.position] == t.signature
  {
    assert LastBytes(t.signature, Back(t)) == t.signature;
  }

  /** The signature is a backstop only: a file emptied and refilled with the same bytes
      around the old position passes for the old one. */
  lemma RefillCanCollide(before: seq<byte>, after: seq<byte>, t: Tail)
    requires Agrees(t, before) && t.position <= |after|
    requires before[t.position - |t.signature|..t.position] == after[t.position - |t.signature|..t.position]
    ensures !Rotated(t, after) && News(t, after) == after[t.position..]
  {}

  // -- every way of cutting a stream into polls --------------------------------------------------

  /** Successive contents of one append-only file. */
  ghost predicate Growing(files: seq<seq<byte>>) {
    forall i | 0 < i < |files| :: files[i - 1] <= files[i]
  }

  function PollAll(t: Tail, files: seq<seq<byte>>): Tail {
    if files == [] then t else Polled(PollAll(t, files[..|files| - 1]), files[|files| - 1])
  }

  function YieldAll(t: Tail, files: seq<seq<byte>>): seq<seq<byte>> {
    if files == [] then []
    else
      var before := files[..|files| - 1];
      YieldAll(t, before) + Yielded(PollAll(t, before), files[|files| - 1])
  }

  /** What has been read from `start` on and what it yielded: all whole lines are out, and
      the rest is held back. */
  ghost predicate CaughtUp(t: Tail, start: nat, file: seq<byte>, out: seq<seq<byte>>) {
    && Agrees(t, file) && start <= t.position
    && var stream := file[start..t.position];
       && t.partial == stream[Complete(stream)..]
       && NonBlank(out) == WholeLines(stream)
  }

  lemma {:induction false} CompleteExtends(whole: seq<byte>, rest: seq<byte>)
    requires Terminated(whole)
    ensures Complete(whole + rest) == |whole| + Complete(rest)
  {
    if rest == [] {
      assert whole + rest == whole;
    } else {
      assert (whole + rest)[..|whole + rest| - 1] == whole + rest[..|rest| - 1];
      if rest[|rest| - 1] != LF { CompleteExtends(whole, rest[..|rest| - 1]); }
    }
  }

  /** Whole lines in front stay what they are; the rest is cut as if it stood alone. */
  lemma WholeThenRest(whole: seq<byte>, rest: seq<byte>)
    requires Terminated(whole)
    ensures WholeLines(whole + rest) == NonBlank(SplitLines(whole)) + WholeLines(rest)
    ensures (whole + rest)[Complete(whole + rest)..] == rest[Complete(rest)..]
  {
    hide SplitLines, NonBlank;
    CompleteExtends(whole, rest);
    var m := Complete(rest);
    hide Complete;
    assert (whole + rest)[..|whole| + m] == whole + rest[..m];
    SplitAtLineFeed(whole, rest[..m]);
    NonBlankAppend(SplitLines(whole), SplitLines(rest[..m]));
  }

  /** Reading on: the held-back part of the old stream and the new bytes split into the
      same whole lines as the two streams taken together. */
  lemma StreamExtends(stream: seq<byte>, data: seq<byte>)
    ensures var held := stream[Complete(stream)..];
      && WholeLines(stream + data) == WholeLines(stream) + WholeLines(held + data)
      && (stream + data)[Complete(stream + data)..] == (held + data)[Complete(held + data)..]
  {
    var n := Complete(stream);
    var whole, held := stream[..n], stream[n..];
    Regroup(stream, n, data);
    WholeThenRest(whole, held + data);
    hide Complete, SplitLines, NonBlank;
  }

  lemma Regroup(stream: seq<byte>, n: nat, data: seq<byte>)
    requires n <= |stream|
    ensures stream + data == stream[..n] + (stream[n..] + data)
  {}

  lemma PollCatchesUp(t: Tail, start: nat, file: seq<byte>, out: seq<seq<byte>>, more: seq<byte>)
    requires CaughtUp(t, start, file, out)
    ensures CaughtUp(Polled(t, file + more), start, file + more, out + Yielded(t, file + more))
    ensures Polled(t, file + more).position == |file + more|
  {
    var grown := file + more;
    NoFalseRestart(t, file, more);
    PolledIsAbsorbed(t, grown);
    var stream, data := file[start..t.position], grown[t.position..];
    StreamGrows(file, more, start, t.position);
    hide Complete, SplitLines, NonBlank, Yield, Agrees, WholeLines, LastBytes, Polled, Yielded, Absorb, News, Resume,
      Rotated;
    if data == [] {
      assert stream + data == stream && out + [] == out;
    } else {
      AbsorbedLines(t, stream, data, out);
    }
  }

  lemma PolledIsAbsorbed(t: Tail, file: seq<byte>)
    requires t.position <= |file| && !Rotated(t, file)
    ensures var data := file[t.position..];
      && Polled(t, file) == Absorb(t, data)
      && Yielded(t, file) == (if data == [] then [] else Yield(t.partial + data))
      && (data == [] ==> Absorb(t, data) == t)
  {
    hide Rotated, Yield;
  }

  lemma StreamGrows(file: seq<byte>, more: seq<byte>, start: nat, position: nat)
    requires start <= position <= |file|
    ensures var grown := file + more;
      grown[start..] == file[start..position] + grown[position..] && grown[start..|grown|] == grown[start..]
  {}

  lemma AbsorbedLines(t: Tail, stream: seq<byte>, data: seq<byte>, out: seq<seq<byte>>)
    requires data != [] && t.partial == stream[Complete(stream)..] && NonBlank(out) == WholeLines(stream)
    ensures Absorb(t, data).partial == (stream + data)[Complete(stream + data)..]
    ensures NonBlank(out + Yield(t.partial + data)) == WholeLines(stream + data)
  {
    StreamExtends(stream, data);
    YieldIsWholeLines(t.partial + data);
    hide Complete, SplitLines, NonBlank, Yield, WholeLines, LastBytes;
    NonBlankAppend(out, Yield(t.partial + data));
  }

  /** However an append-only file is cut into polls, the non-blank lines yielded are the
      whole non-blank lines of what was read: the cuts do not show. */
  lemma {:induction false} CutsDoNotShow(t: Tail, file: seq<byte>, files: seq<seq<byte>>)
    requires Agrees(t, file) && t.partial == []
    requires Growing([file] + files)
    ensures var last := ([file] + files)[|files|];
      var u := PollAll(t, files);
      CaughtUp(u, t.position, last, YieldAll(t, files)) && (files != [] ==> u.position == |last|)
  {
    if files == [] {
      assert file[t.position..t.position] == [];
    } else {
      var n := |files| - 1;
      var all, before := [file] + files, [file] + files[..n];
      assert forall i | 0 <= i < n + 1 :: before[i] == all[i];
      CutsDoNotShow(t, file, files[..n]);
      var prev, last := all[n], files[n];
      assert all[n + 1] == last && prev <= last;
      assert last == prev + last[|prev|..];
      hide CaughtUp, Polled, Yielded;
      PollCatchesUp(PollAll(t, files[..n]), t.position, prev, YieldAll(t, files[..n]), last[|prev|..]);
    }
  }
}
