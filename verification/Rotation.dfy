/**
 The live log, its tail and the archive sweep as one system of interleaved steps: the game
 client appends whenever it likes, a background thread copies the log aside, and the
 driver thread polls, then seals the copy, empties the log and tells the tail. Each
 system call of the swap is a step of its own, and any of them may fail.
 */
module Rotation {
  import opened Options
  import opened TailValues

  const CATCHUP_LIMIT: nat := 256 * 1024

  datatype Phase =
    | Idle
    | Copying                                        // background thread
    | Staged(copied: nat)
    | Opened(copied: nat, end: nat)                  // driver thread from here on
    | Caught(copied: nat, end: nat, catchup: seq<byte>)
    | Written(copied: nat, end: nat, got: nat)
    | Sealed(copied: nat, end: nat, got: nat)
    | Emptied                                        // truncated; the tail is told next

  /** What one file's life, from empty (or from attaching) to truncation, came to. */
  datatype Epoch = Epoch(
    content: seq<byte>, start: nat, delivered: seq<byte>, out: seq<seq<byte>>,
    archive: seq<byte>, copied: nat, end: nat, got: nat, early: nat, late: nat)

  datatype World = World(
    log: seq<byte>,
    tail: Tail,
    start: nat,                // where the tail began in this epoch
    delivered: seq<byte>,      // bytes read in this epoch
    out: seq<seq<byte>>,       // lines yielded in this epoch
    partial: Option<seq<byte>>,
    dest: Option<seq<byte>>,
    phase: Phase,
    early: nat,                // bytes appended between the swap's measurement and its read
    late: nat,                 // and after its read
    left: seq<seq<byte>>,      // copies that failures have left on disk
    past: seq<Epoch>)

  datatype Action =
    | Append(more: seq<byte>)
    | Poll
    | StartCopy
    | CopyChunk(size: nat)
    | CopyDone
    | CopyFails
    | OpenLog
    | ReadCatchup
    | WriteCatchup
    | Seal
    | Truncate
    | TellTail
    | SwapFails(removed: bool)                       // whether deleting the partial copy worked

  predicate Enabled(w: World, a: Action) {
    match a
    case Append(_) => true
    case Poll => w.phase.Idle? || w.phase.Copying? || w.phase.Staged?  // not inside a swap: same thread
    case StartCopy => w.phase.Idle?
    case CopyChunk(size) => w.phase.Copying? && w.partial.Some? && size > 0 && |w.partial.value| + size <= |w.log|
    case CopyDone => w.phase.Copying? && w.partial.Some? && |w.partial.value| >= |w.log|
    case CopyFails => w.phase.Copying?
    case OpenLog => w.phase.Staged?
    case ReadCatchup => w.phase.Opened? && w.phase.copied <= |w.log|
    case WriteCatchup => w.phase.Caught? && w.partial.Some?
    case Seal => w.phase.Written? && w.partial.Some?
    case Truncate => w.phase.Sealed? && w.dest.Some?
    case TellTail => w.phase.Emptied?
    case SwapFails(_) => w.phase.Staged? || w.phase.Opened? || w.phase.Caught? || w.phase.Written? || w.phase.Sealed?
  }

  /** One bounded read, and none when the log had not grown by the time it was measured. */
  function Catchup(log: seq<byte>, copied: nat, end: nat): seq<byte>
    requires copied <= |log|
  {
    if end <= copied then []
    else if |log| - copied > CATCHUP_LIMIT then log[copied..copied + CATCHUP_LIMIT]
    else log[copied..]
  }

  /** Bytes the client writes during a swap, told apart by whether the swap has read yet. */
  function Appended(w: World, more: seq<byte>): World {
    w.(log := w.log + more,
       early := if w.phase.Opened? then w.early + |more| else w.early,
       late := if w.phase.Caught? || w.phase.Written? || w.phase.Sealed? then w.late + |more| else w.late)
  }

  function OnDisk(copy: Option<seq<byte>>): seq<seq<byte>> {
    match copy case None => [] case Some(data) => [data]
  }

  function Next(w: World, a: Action): World
    requires Enabled(w, a)
  {
    match a
    case Append(more) => Appended(w, more)
    case Poll =>
      w.(tail := Polled(w.tail, w.log), delivered := w.delivered + News(w.tail, w.log),
         out := w.out + Yielded(w.tail, w.log))
    case StartCopy => w.(phase := Copying, partial := Some([]))
    case CopyChunk(size) =>
      var have := w.partial.value;
      w.(partial := Some(have + w.log[|have|..|have| + size]))
    case CopyDone => w.(phase := Staged(|w.partial.value|))
    case CopyFails => w.(phase := Idle, partial := None, left := w.left + OnDisk(w.partial))
    case OpenLog => w.(phase := Opened(w.phase.copied, |w.log|), early := 0, late := 0)
    case ReadCatchup => w.(phase := Caught(w.phase.copied, w.phase.end, Catchup(w.log, w.phase.copied, w.phase.end)))
    case WriteCatchup =>
      w.(phase := Written(w.phase.copied, w.phase.end, |w.phase.catchup|),
         partial := Some(w.partial.value + w.phase.catchup))
    case Seal => w.(phase := Sealed(w.phase.copied, w.phase.end, w.phase.got), dest := w.partial, partial := None)
    case Truncate =>
      w.(phase := Emptied, log := [], start := 0, delivered := [], out := [], dest := None,
         past := w.past + [Closing(w)])
    case TellTail => w.(phase := Idle, tail := TOP)
    // The partial copy is deleted, if that works; one already sealed stays beside the log.
    case SwapFails(removed) =>
      w.(phase := Idle, partial := None, dest := None,
         left := w.left + (if removed then [] else OnDisk(w.partial)) + OnDisk(w.dest))
  }

  function Run(w: World, schedule: seq<Action>): World {
    if schedule == [] then w
    else
      var v, a := Run(w, schedule[..|schedule| - 1]), schedule[|schedule| - 1];
      if Enabled(v, a) then Next(v, a) else v
  }

  /** A tail freshly attached somewhere in the log. */
  ghost predicate Attached(w: World) {
    && Agrees(w.tail, w.log) && w.tail.partial == [] && w.start == w.tail.position
    && w.delivered == [] && w.out == [] && w.partial.None? && w.dest.None?
    && w.phase == Idle && w.left == [] && w.past == []
  }

  // -- the invariant -----------------------------------------------------------------------

  /** What has been read in this epoch is one stretch of the log, and its lines are out. */
  ghost predicate TailOk(w: World) {
    if w.phase.Emptied? then w.start == 0 && w.delivered == [] && w.out == []
    else CaughtUp(w.tail, w.start, w.log, w.out) && w.delivered == w.log[w.start..w.tail.position]
  }

  /** What one bounded read gives when the log has reached `size`. */
  function CatchupSize(copied: nat, end: nat, size: nat): nat
    requires copied <= size
  {
    if end <= copied then 0 else if size - copied > CATCHUP_LIMIT then CATCHUP_LIMIT else size - copied
  }

  /** The log is what was measured and what came in after, and `got` what the read found. */
  ghost predicate Measured(log: seq<byte>, copied: nat, end: nat, got: nat, early: nat, late: nat) {
    && copied <= end && |log| == end + early + late
    && got == CatchupSize(copied, end, end + early)
  }

  /** The copy is always a prefix of the log it was taken from. */
  ghost predicate CopyOk(w: World) {
    match w.phase
    case Idle => w.partial.None? && w.dest.None?
    case Copying => w.partial.Some? && w.dest.None? && w.partial.value <= w.log
    case Staged(c) => w.dest.None? && c <= |w.log| && w.partial == Some(w.log[..c])
    case Opened(c, e) =>
      && w.dest.None? && c <= e && |w.log| == e + w.early && w.late == 0
      && w.partial == Some(w.log[..c])
    case Caught(c, e, k) =>
      && w.dest.None? && Measured(w.log, c, e, |k|, w.early, w.late)
      && w.partial == Some(w.log[..c]) && k == w.log[c..c + |k|]
    case Written(c, e, g) =>
      w.dest.None? && Measured(w.log, c, e, g, w.early, w.late) && w.partial == Some(w.log[..c + g])
    case Sealed(c, e, g) =>
      w.partial.None? && Measured(w.log, c, e, g, w.early, w.late) && w.dest == Some(w.log[..c + g])
    case Emptied => w.partial.None? && w.dest.None?
  }

  /** `data` is what `file` holds from `start` on, for as long as it goes. */
  ghost predicate Stretch(data: seq<byte>, file: seq<byte>, start: nat) {
    start + |data| <= |file| && data == file[start..start + |data|]
  }

  ghost predicate EpochOk(e: Epoch) {
    && Stretch(e.delivered, e.content, e.start)
    && NonBlank(e.out) == WholeLines(e.delivered)
    && Measured(e.content, e.copied, e.end, e.got, e.early, e.late)
    && e.archive == e.content[..e.copied + e.got]
  }

  ghost predicate PastOk(w: World) {
    && (forall i | 0 <= i < |w.past| :: EpochOk(w.past[i]) && (i > 0 ==> w.past[i].start == 0))
    && (w.past != [] ==> w.start == 0)
  }

  /** Everything a failure left behind is the start of the log, or of one since archived. */
  ghost predicate LeftOk(w: World) {
    forall data | data in w.left :: StartsALog(w, data)
  }

  ghost predicate StartsALog(w: World, data: seq<byte>) {
    data <= w.log || exists i | 0 <= i < |w.past| :: data <= w.past[i].content
  }

  ghost predicate Inv(w: World) { TailOk(w) && CopyOk(w) && PastOk(w) && LeftOk(w) }

  lemma CaughtUpGrows(t: Tail, start: nat, file: seq<byte>, out: seq<seq<byte>>, more: seq<byte>)
    requires CaughtUp(t, start, file, out)
    ensures CaughtUp(t, start, file + more, out)
    ensures (file + more)[start..t.position] == file[start..t.position]
  {
    hide WholeLines, NonBlank, Complete;
    assert (file + more)[start..t.position] == file[start..t.position];
    assert (file + more)[t.position - |t.signature|..t.position] == file[t.position - |t.signature|..t.position];
  }

  lemma StepTail(w: World, a: Action)
    requires Enabled(w, a) && TailOk(w)
    ensures TailOk(Next(w, a))
  {
    hide CaughtUp, Polled, Yielded, Catchup;
    match a
    case Append(more) =>
      if !w.phase.Emptied? {
        CaughtUpGrows(w.tail, w.start, w.log, w.out, more);
        CaughtUpInside(w.tail, w.start, w.log, w.out);
      }
    case Poll => PollReads(w);
    case TellTail => FreshTail(w.log);
    case _ =>
  }

  lemma CaughtUpInside(t: Tail, start: nat, file: seq<byte>, out: seq<seq<byte>>)
    requires CaughtUp(t, start, file, out)
    ensures start <= t.position <= |file| && NonBlank(out) == WholeLines(file[start..t.position])
  {}

  lemma FreshTail(log: seq<byte>)
    ensures CaughtUp(TOP, 0, log, []) && log[0..0] == []
  {}

  ghost predicate ReadToTheEnd(w: World) {
    w.start <= |w.log| && w.delivered == w.log[w.start..]
  }

  lemma PollReads(w: World)
    requires Enabled(w, Poll) && TailOk(w)
    ensures var v := Next(w, Poll);
      TailOk(v) && ReadToTheEnd(v)
  {
    assert w.log + [] == w.log;
    PollCatchesUp(w.tail, w.start, w.log, w.out, []);
    NoFalseRestart(w.tail, w.log, []);
    StreamGrows(w.log, [], w.start, w.tail.position);
    hide CaughtUp, Polled, Yielded, News, Agrees;
  }

  lemma MeasuredCatchup(log: seq<byte>, copied: nat, end: nat)
    requires copied <= end <= |log|
    ensures var k := Catchup(log, copied, end);
      Measured(log, copied, end, |k|, |log| - end, 0) && k == log[copied..copied + |k|]
  {}

  lemma StepCopy(w: World, a: Action)
    requires Enabled(w, a) && CopyOk(w)
    ensures CopyOk(Next(w, a))
  {
    hide Catchup, Polled, Yielded, News;
    match a
    case Append(more) => AppendCopy(w, more);
    case CopyChunk(size) =>
      var have := w.partial.value;
      assert have + w.log[|have|..|have| + size] == w.log[..|have| + size];
    case CopyDone => assert w.log[..|w.partial.value|] == w.partial.value;
    case ReadCatchup => MeasuredCatchup(w.log, w.phase.copied, w.phase.end);
    case WriteCatchup =>
      assert w.log[..w.phase.copied] + w.phase.catchup == w.log[..w.phase.copied + |w.phase.catchup|];
    case _ =>
  }

  lemma AppendCopy(w: World, more: seq<byte>)
    requires CopyOk(w)
    ensures CopyOk(Appended(w, more))
  {
    forall n | 0 <= n <= |w.log| ensures (w.log + more)[..n] == w.log[..n] {}
    if w.phase.Caught? {
      var c, k := w.phase.copied, w.phase.catchup;
      assert (w.log + more)[c..c + |k|] == w.log[c..c + |k|];
    }
  }

  lemma StepPast(w: World, a: Action)
    requires Enabled(w, a) && Inv(w)
    ensures PastOk(Next(w, a))
  {
    hide Catchup, Polled, Yielded, News, EpochOk, TailOk, CopyOk;
    if a.Truncate? {
      EpochCloses(w);
      assert Next(w, a).past == w.past + [Closing(w)];
    } else {
      assert Next(w, a).past == w.past && Next(w, a).start == w.start;
    }
  }

  lemma StepLeft(w: World, a: Action)
    requires Enabled(w, a) && CopyOk(w) && LeftOk(w)
    ensures LeftOk(Next(w, a))
  {
    hide Catchup, Polled, Yielded, News, StartsALog;
    var v := Next(w, a);
    CopiesArePrefixes(w);
    if a.Append? || a.Truncate? || a.CopyFails? || a.SwapFails? {
      forall data | data in v.left ensures StartsALog(v, data) {
        if data in w.left { StillStarts(w, a, data); } else { assert data <= w.log; StillStarts(w, a, data); }
      }
    } else {
      assert v.left == w.left && v.past == w.past && (v.log == w.log);
      forall data | data in v.left ensures StartsALog(v, data) { SameStarts(w, v, data); }
    }
  }

  lemma SameStarts(w: World, v: World, data: seq<byte>)
    requires v.past == w.past && v.log == w.log && StartsALog(w, data)
    ensures StartsALog(v, data)
  {}

  lemma StillStarts(w: World, a: Action, data: seq<byte>)
    requires Enabled(w, a) && (a.Append? || a.Truncate? || a.CopyFails? || a.SwapFails?)
    requires StartsALog(w, data) || data <= w.log
    ensures StartsALog(Next(w, a), data)
  {
    var v := Next(w, a);
    if data <= w.log {
      if a.Truncate? { assert v.past[|w.past|].content == w.log; }
    } else {
      var i :| 0 <= i < |w.past| && data <= w.past[i].content;
      assert v.past[i] == w.past[i];
    }
  }

  function Closing(w: World): Epoch
    requires Enabled(w, Truncate)
  {
    Epoch(w.log, w.start, w.delivered, w.out, w.dest.value,
          w.phase.copied, w.phase.end, w.phase.got, w.early, w.late)
  }

  lemma EpochCloses(w: World)
    requires Enabled(w, Truncate) && TailOk(w) && CopyOk(w)
    ensures EpochOk(Closing(w))
  {
    hide WholeLines, NonBlank, Complete;
    assert w.log[w.start..w.tail.position] == w.log[w.start..w.start + |w.delivered|];
  }

  lemma {:induction false} RunInv(w: World, schedule: seq<Action>)
    requires Attached(w)
    ensures Inv(Run(w, schedule))
  {
    if schedule == [] {
      assert w.log[w.start..w.tail.position] == [];
    } else {
      var v, a := Run(w, schedule[..|schedule| - 1]), schedule[|schedule| - 1];
      RunInv(w, schedule[..|schedule| - 1]);
      if Enabled(v, a) {
        StepTail(v, a);
        StepCopy(v, a);
        StepPast(v, a);
        StepLeft(v, a);
      }
    }
  }

  // -- what every schedule guarantees ------------------------------------------------------

  /** Each epoch delivered one stretch of its file, the first one from `first` and every
      later one from the top, and the non-blank lines that came out are its whole lines. */
  ghost predicate DeliversStretches(v: World, first: nat) {
    && (forall i | 0 <= i < |v.past| ::
          && v.past[i].start == (if i == 0 then first else 0)
          && Stretch(v.past[i].delivered, v.past[i].content, v.past[i].start)
          && NonBlank(v.past[i].out) == WholeLines(v.past[i].delivered))
    && (!v.phase.Emptied? ==>
          && v.start == (if v.past == [] then first else 0)
          && Stretch(v.delivered, v.log, v.start) && NonBlank(v.out) == WholeLines(v.delivered))
  }

  lemma InvDelivers(v: World, first: nat)
    requires Inv(v) && first == if v.past == [] then v.start else v.past[0].start
    ensures DeliversStretches(v, first)
  {
    hide WholeLines, NonBlank, Complete, Measured, CopyOk, Agrees;
    if !v.phase.Emptied? {
      CaughtUpInside(v.tail, v.start, v.log, v.out);
      assert v.log[v.start..v.tail.position] == v.log[v.start..v.start + |v.delivered|];
    }
  }

  /** In every epoch the tail delivers one contiguous stretch of the file, from the attach
      offset in the first and from the top in every later one: nothing twice, nothing
      skipped inside; and its non-blank lines are the whole lines of that stretch. */
  lemma DeliveryIsContiguous(w: World, schedule: seq<Action>)
    requires Attached(w)
    ensures DeliversStretches(Run(w, schedule), w.start)
  {
    RunInv(w, schedule);
    FirstStart(w, schedule);
    hide DeliversStretches, TailOk, CopyOk, PastOk, Run;
    InvDelivers(Run(w, schedule), w.start);
  }

  lemma {:induction false} FirstStart(w: World, schedule: seq<Action>)
    requires Attached(w)
    ensures var v := Run(w, schedule); if v.past == [] then v.start == w.start else v.past[0].start == w.start
  {
    if schedule != [] {
      hide Catchup, Polled, Yielded, News;
      FirstStart(w, schedule[..|schedule| - 1]);
    }
  }

  /** A poll leaves nothing unread, so what an epoch never delivered was appended after its
      last poll. */
  lemma PollReadsToTheEnd(w: World, schedule: seq<Action>)
    requires Attached(w) && Enabled(Run(w, schedule), Poll)
    ensures ReadToTheEnd(Next(Run(w, schedule), Poll))
  {
    hide Next, CopyOk, PastOk, ReadToTheEnd;
    RunInv(w, schedule);
    PollReads(Run(w, schedule));
  }

  /** The number of bytes the swap reports as not in the archive. */
  function Dropped(e: Epoch): nat {
    if e.end > e.copied + e.got then e.end - e.copied - e.got else 0
  }

  /** Nothing came in after the read; and what came in between measuring and reading was
      read, which takes growth seen by the measurement and room under the limit. */
  predicate ReportsAll(e: Epoch) {
    e.late == 0 && (e.early == 0 || (e.end > e.copied && e.end + e.early - e.copied <= 262144))
  }

  /** The read had something to start from, or nothing to miss, and room for all of it. */
  predicate TakesAll(e: Epoch) {
    e.late == 0 && (e.early == 0 || e.end > e.copied) && e.end + e.early - e.copied <= 262144
  }

  /** Each archive is the prefix of its log of length copied plus catch-up. What is reported
      dropped is the true remainder exactly when `ReportsAll`, and the archive is the whole
      log exactly when `TakesAll`: both say when the client wrote during the swap, and how
      much. */
  lemma ArchiveIsThePrefix(w: World, schedule: seq<Action>, i: nat)
    requires Attached(w) && i < |Run(w, schedule).past|
    ensures var e := Run(w, schedule).past[i];
      && e.archive <= e.content && |e.archive| == e.copied + e.got && e.got <= 262144
      && Dropped(e) <= |e.content| - |e.archive|
      && (Dropped(e) == |e.content| - |e.archive| <==> ReportsAll(e))
      && (e.archive == e.content <==> TakesAll(e))
  {
    RunInv(w, schedule);
    var e := Run(w, schedule).past[i];
    assert EpochOk(e);
    assert e.content[..|e.content|] == e.content;
  }

  /** The swap of an archived log in eight steps, with one byte written where `when` says. */
  function SwapWhile(size: nat, early: bool): seq<Action> {
    [StartCopy, CopyChunk(size), CopyDone, OpenLog] +
    (if early then [Append([0]), ReadCatchup] else [ReadCatchup, Append([0])]) +
    [WriteCatchup, Seal, Truncate]
  }

  lemma RunAppend(w: World, schedule: seq<Action>, a: Action)
    ensures Run(w, schedule + [a]) ==
      if Enabled(Run(w, schedule), a) then Next(Run(w, schedule), a) else Run(w, schedule)
  {
    assert (schedule + [a])[..|schedule|] == schedule;
  }

  /** Any log that has not grown since it was copied can lose a byte that no report mentions,
      whether the byte comes in before the read that is then not made, or after it. */
  lemma AByteCanGoUnreported(w: World, early: bool)
    requires Attached(w) && w.log != []
    ensures var v := Run(w, SwapWhile(|w.log|, early));
      && |v.past| == 1 && v.past[0].archive == w.log && v.past[0].content == w.log + [0]
      && Dropped(v.past[0]) == 0 && v.log == []
  {
    hide Run, Polled, Yielded, News;
    var head := [StartCopy, CopyChunk(|w.log|), CopyDone, OpenLog];
    var read := head + if early then [Append([0]), ReadCatchup] else [ReadCatchup, Append([0])];
    assert SwapWhile(|w.log|, early) == read + [WriteCatchup] + [Seal] + [Truncate];
    StagedWhole(w);
    ReadsNothing(w, head, early);
    SwapEnds(w, read);
    assert w.log + [] == w.log;
  }

  lemma ReadsNothing(w: World, head: seq<Action>, early: bool)
    requires var v := Run(w, head); v.phase == Opened(|v.log|, |v.log|) && v.early == 0 == v.late
    ensures var v := Run(w, head);
      Run(w, head + if early then [Append([0]), ReadCatchup] else [ReadCatchup, Append([0])]) ==
      v.(log := v.log + [0], phase := Caught(|v.log|, |v.log|, []),
         early := if early then 1 else 0, late := if early then 0 else 1)
  {
    hide Run, Polled, Yielded, News;
    var first, second := if early then Append([0]) else ReadCatchup, if early then ReadCatchup else Append([0]);
    var both := if early then [Append([0]), ReadCatchup] else [ReadCatchup, Append([0])];
    assert head + both == head + [first] + [second];
    RunAppend(w, head, first);
    RunAppend(w, head + [first], second);
  }

  lemma SwapEnds(w: World, schedule: seq<Action>)
    requires Run(w, schedule).phase.Caught? && Run(w, schedule).partial.Some?
    ensures var v, u := Run(w, schedule), Run(w, schedule + [WriteCatchup] + [Seal] + [Truncate]);
      var c, k := v.phase.copied, v.phase.catchup;
      && u.log == [] && u.past == v.past +
        [Epoch(v.log, v.start, v.delivered, v.out, v.partial.value + k, c, v.phase.end, |k|, v.early, v.late)]
  {
    hide Run, Polled, Yielded, News, Catchup;
    RunAppend(w, schedule, WriteCatchup);
    RunAppend(w, schedule + [WriteCatchup], Seal);
    RunAppend(w, schedule + [WriteCatchup] + [Seal], Truncate);
  }

  lemma StagedWhole(w: World)
    requires Attached(w) && w.log != []
    ensures var v := Run(w, [StartCopy, CopyChunk(|w.log|), CopyDone, OpenLog]);
      v == w.(phase := Opened(|w.log|, |w.log|), partial := Some(w.log), early := 0, late := 0)
  {
    hide Polled, Yielded, News, Catchup;
    CopiedWhole(w);
    hide Run;
    var schedule := [StartCopy, CopyChunk(|w.log|)];
    RunAppend(w, schedule, CopyDone);
    RunAppend(w, schedule + [CopyDone], OpenLog);
    assert schedule + [CopyDone] + [OpenLog] == [StartCopy, CopyChunk(|w.log|), CopyDone, OpenLog];
  }

  lemma CopiedWhole(w: World)
    requires Attached(w) && w.log != []
    ensures Run(w, [StartCopy, CopyChunk(|w.log|)]) == w.(phase := Copying, partial := Some(w.log))
  {
    hide Polled, Yielded, News, Catchup;
    assert [] + [StartCopy] == [StartCopy] && Run(w, []) == w;
    RunAppend(w, [], StartCopy);
    hide Run;
    RunAppend(w, [StartCopy], CopyChunk(|w.log|));
    assert [StartCopy] + [CopyChunk(|w.log|)] == [StartCopy, CopyChunk(|w.log|)];
    assert [] + w.log[0..0 + |w.log|] == w.log;
  }

  /** Whatever fails and whenever, only the truncation shortens the log, and it happens only
      with a sealed copy of the log's prefix: every staged byte is in the live log, in the
      partial copy of it, or in a sealed archive. */
  lemma NothingStagedIsLost(w: World, schedule: seq<Action>, a: Action)
    requires Attached(w) && Enabled(Run(w, schedule), a)
    ensures var v, u := Run(w, schedule), Next(Run(w, schedule), a);
      && (v.partial.Some? ==> v.partial.value <= v.log)
      && (v.dest.Some? ==> v.dest.value <= v.log)
      && (forall data | data in v.left :: StartsALog(v, data)) && v.left <= u.left
      && (if a.Truncate?
          then v.dest.Some? && |u.past| == |v.past| + 1 && v.past <= u.past && u.past[|v.past|].archive == v.dest.value
          else v.log <= u.log && u.past == v.past)
  {
    RunInv(w, schedule);
    hide Run, Next, StartsALog, TailOk, PastOk, CopyOk;
    CopiesArePrefixes(Run(w, schedule));
    StepKeepsBytes(Run(w, schedule), a);
  }

  /** Only the truncation shortens the log, and only over a sealed copy. */
  lemma StepKeepsBytes(v: World, a: Action)
    requires Enabled(v, a)
    ensures var u := Next(v, a);
      && v.left <= u.left
      && (if a.Truncate?
          then v.dest.Some? && |u.past| == |v.past| + 1 && v.past <= u.past && u.past[|v.past|].archive == v.dest.value
          else v.log <= u.log && u.past == v.past)
  {
    hide Catchup, Polled, Yielded, News;
  }

  lemma CopiesArePrefixes(v: World)
    requires CopyOk(v)
    ensures v.partial.Some? ==> v.partial.value <= v.log
    ensures v.dest.Some? ==> v.dest.value <= v.log
  {}

  /** A copy is done only when it holds all of the log there is. */
  lemma CopiesAreWhole(w: World, schedule: seq<Action>)
    requires Attached(w) && Enabled(Run(w, schedule), CopyDone)
    ensures var v := Run(w, schedule); v.partial == Some(v.log) && Next(v, CopyDone).phase == Staged(|v.log|)
  {
    RunInv(w, schedule);
    hide Run, TailOk, PastOk, LeftOk, Next, CopyOk;
    WholeCopy(Run(w, schedule));
  }

  lemma WholeCopy(v: World)
    requires CopyOk(v) && Enabled(v, CopyDone)
    ensures v.partial == Some(v.log) && Next(v, CopyDone).phase == Staged(|v.log|)
  {
    hide Catchup, Polled, Yielded, News;
    var have := v.partial.value;
    assert have == v.log[..|have|] == v.log;
  }

  /** What a failure leaves behind: a copy aside that failed stays, a partial one that the swap could
      not delete stays, and so does one sealed already. */
  lemma FailuresLeaveTheirCopies(w: World, schedule: seq<Action>, a: Action)
    requires Enabled(Run(w, schedule), a) && (a.CopyFails? || a.SwapFails?)
    ensures var v := Run(w, schedule);
      var u := Next(v, a);
      && u.log == v.log && u.tail == v.tail && u.phase == Idle && u.past == v.past
      && (v.partial.Some? && (a.SwapFails? ==> !a.removed) ==> v.partial.value in u.left)
      && (a.SwapFails? && v.dest.Some? ==> v.dest.value in u.left)
  {
    hide Run, Catchup, Polled, Yielded, News;
  }
}
