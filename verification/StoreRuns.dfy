/** What holds of a mirror over any run of syncs, marks and forgets from an empty one. */
module StoreRuns {
  import opened Options
  import opened Text
  import opened SocialKeys
  import opened SocialValues
  import opened StoreValues

  datatype Op =
    | SyncOp(grid: seq<Social>, now: int)
    | MarkOp(socials: seq<Social>, mark: Mark, now: int)
    | ForgetOp(slots: set<Slot>)

  function Step(records: seq<Record>, op: Op): seq<Record> {
    match op
    case SyncOp(grid, now) => Sync(records, grid, now)
    case MarkOp(socials, mark, now) => MarkWritten(records, socials, mark, now)
    case ForgetOp(slots) => Forget(records, slots)
  }

  function Run(ops: seq<Op>): seq<Record> {
    if ops == [] then [] else Step(Run(ops[..|ops| - 1]), ops[|ops| - 1])
  }

  /** A file read gives one social a slot. */
  ghost predicate Readable(ops: seq<Op>) {
    forall op | op in ops :: op.SyncOp? ==> OneEach(op.grid)
  }

  /** The digest on record is that of the social on record, and nothing is called ours without one. */
  predicate RecordOk(r: Record) {
    && (r.written.Some? ==> r.written.value == Digest(r.social))
    && (r.origin != Game ==> r.written.Some?)
  }

  ghost predicate Sound(records: seq<Record>) {
    Sorted(records) && forall r | r in records :: RecordOk(r)
  }

  /** What a record becomes in one step, slot by slot. */
  ghost function StepAt(was: Option<Record>, op: Op, slot: Slot): Option<Record> {
    match op
    case SyncOp(grid, now) => (
      match SocialAt(grid, slot)
      case Some(s) => Became(was, Some(s), Synced, now)
      case None => match was { case None => None case Some(r) => Some(Gone(r, now)) })
    case MarkOp(socials, mark, now) => Became(was, SocialAt(Normalize(socials, MAX_LINES), slot), Written(mark), now)
    case ForgetOp(slots) => if slot in slots then None else was
  }

  lemma StepIs(records: seq<Record>, op: Op, slot: Slot)
    requires Sorted(records) && (op.SyncOp? ==> OneEach(op.grid))
    ensures Sorted(Step(records, op)) && At(Step(records, op), slot) == StepAt(At(records, slot), op, slot)
  {
    hide Sync, MarkWritten, Forget, At, Became, Gone, Sorted;
    SortedIsUnique(records);
    match op
    case SyncOp(grid, now) => SyncAt(records, grid, now, slot);
    case MarkOp(socials, mark, now) => MarkAt(records, socials, mark, now, slot);
    case ForgetOp(slots) => ForgetAt(records, slots, slot);
  }

  // -- provenance ------------------------------------------------------------------------------------

  /** What the operations so far say of a slot: the content last read or written there, whether
      we wrote it and nothing read since differed, and whether the file has it. */
  datatype Known = Known(content: Payload, ours: bool, inFile: bool)

  ghost function Knows(ops: seq<Op>, slot: Slot): Option<Known> {
    if ops == [] then None
    else KnowsNext(Knows(ops[..|ops| - 1], slot), ops[|ops| - 1], slot)
  }

  ghost function KnowsNext(was: Option<Known>, op: Op, slot: Slot): Option<Known> {
    match op
    case SyncOp(grid, now) => (
      match SocialAt(grid, slot)
      case Some(s) => Some(Known(Digest(s), was.Some? && was.value.ours && was.value.content == Digest(s), true))
      case None => match was { case None => None case Some(k) => Some(k.(inFile := false)) })
    case MarkOp(socials, mark, now) => (
      match SocialAt(Normalize(socials, MAX_LINES), slot)
      case Some(s) => Some(Known(Digest(s), true, true))
      case None => was)
    case ForgetOp(slots) => if slot in slots then None else was
  }

  ghost predicate Tells(r: Option<Record>, k: Option<Known>) {
    match r
    case None => k.None?
    case Some(record) =>
      RecordOk(record) && k == Some(Known(Digest(record.social), record.written.Some?, record.inFile))
  }

  lemma StepTells(r: Option<Record>, k: Option<Known>, op: Op, slot: Slot)
    requires Tells(r, k)
    ensures Tells(StepAt(r, op, slot), KnowsNext(k, op, slot))
  {
    hide Digest, SocialAt, Normalize;
  }

  /** Over every run: slots are unique and in order, a record says what was last read or written
      at its slot and whether that is still ours, and an origin other than the game's is only
      ever kept by content we wrote. */
  lemma {:induction false} Provenance(ops: seq<Op>, slot: Slot)
    requires Readable(ops)
    ensures Sorted(Run(ops)) && Tells(At(Run(ops), slot), Knows(ops, slot))
  {
    hide Step, StepAt, Sorted, Tells, KnowsNext, Find;
    if ops == [] {
      NothingKnown(slot);
    } else {
      var init, op := ops[..|ops| - 1], ops[|ops| - 1];
      assert op in ops && forall o | o in init :: o in ops;
      Provenance(init, slot);
      StepIs(Run(init), op, slot);
      StepTells(At(Run(init), slot), Knows(init, slot), op, slot);
    }
  }

  lemma NothingKnown(slot: Slot)
    ensures Sorted([]) && Tells(At([], slot), None)
  {}

  lemma RunSound(ops: seq<Op>)
    requires Readable(ops)
    ensures Sound(Run(ops))
  {
    hide RecordOk, Sorted;
    Provenance(ops, (0, 0));
    forall r | r in Run(ops) ensures RecordOk(r) {
      Provenance(ops, r.Place());
      SortedIsUnique(Run(ops));
      AtIs(Run(ops), r);
    }
  }

  // -- writing, then reading what was written ------------------------------------------------------------

  /** Reading back a slot just marked keeps its origin exactly when the content read is the
      content marked, or the origin was the game's already. */
  lemma MarkedSlotReadBack(records: seq<Record>, socials: seq<Social>, mark: Mark, t: int, grid: seq<Social>,
          now: int, slot: Slot)
    requires Sorted(records) && OneEach(grid)
    requires slot in BySlot(socials, MAX_LINES) && SocialAt(grid, slot).Some?
    ensures var marked := MarkWritten(records, socials, mark, t);
      var read := Sync(marked, grid, now);
      At(marked, slot).Some? && At(read, slot).Some? &&
      (At(read, slot).value.origin == At(marked, slot).value.origin <==>
       Digest(SocialAt(grid, slot).value) == Digest(BySlot(socials, MAX_LINES)[slot]) ||
         At(marked, slot).value.origin == Game)
  {
    hide Sorted, Digest, BySlot, At, SocialAt, Sync, MarkWritten, Normalize;
    SortedIsUnique(records);
    NormalizedAt(socials, MAX_LINES, slot);
    MarkAt(records, socials, mark, t, slot);
    var marked := MarkWritten(records, socials, mark, t);
    SortedIsUnique(marked);
    SyncAt(marked, grid, now, slot);
  }

  /** No social has more than five lines to show. */
  predicate AtMostFive(socials: seq<Social>) {
    forall s | s in socials :: |DropBlanks(StripAll(s.lines))| <= MAX_LINES
  }

  lemma {:induction false} FiveAreNotCut(socials: seq<Social>, most: nat)
    requires most >= MAX_LINES && AtMostFive(socials)
    ensures BySlot(socials, most) == BySlot(socials, MAX_LINES)
  {
    hide Strip, IsEmpty, DropBlanks, StripAll;
    if socials != [] {
      var init, last := socials[..|socials| - 1], socials[|socials| - 1];
      assert last in socials && forall s | s in init :: s in socials;
      FiveAreNotCut(init, most);
    }
  }

  /** Marking socials of at most five lines and then syncing the same socials, normalised at
      any number of lines, changes no origin anywhere. */
  lemma MarkThenSyncKeepsOrigins(records: seq<Record>, socials: seq<Social>, mark: Mark, t: int, most: nat,
          now: int, slot: Slot)
    requires Sorted(records) && most >= MAX_LINES && AtMostFive(socials)
    ensures var marked := MarkWritten(records, socials, mark, t);
      var read := Sync(marked, Normalize(socials, most), now);
      OriginAt(read, slot) == OriginAt(marked, slot)
  {
    hide Sorted, Digest, BySlot, At, SocialAt, Sync, MarkWritten, Normalize, OneEach;
    FiveAreNotCut(socials, most);
    NormalizedAt(socials, most, slot);
    NormalizedAt(socials, MAX_LINES, slot);
    SortedIsUnique(records);
    MarkAt(records, socials, mark, t, slot);
    var marked := MarkWritten(records, socials, mark, t);
    SortedIsUnique(marked);
    SyncAt(marked, Normalize(socials, most), now, slot);
  }

  function OriginAt(records: seq<Record>, slot: Slot): Origin {
    match At(records, slot) case None => Game case Some(r) => r.origin
  }

  // -- syncing twice -----------------------------------------------------------------------------------------

  lemma RenewedTwice(was: Option<Record>, op: Op, again: Op, slot: Slot)
    requires op.SyncOp? && again.SyncOp? && op.grid == again.grid
    ensures StepAt(StepAt(was, op, slot), again, slot) == StepAt(was, op, slot)
  {
    hide Digest, SocialAt;
  }

  /** The same file read again changes no record, and reports nothing added or changed. */
  lemma SyncTwiceIsOnce(records: seq<Record>, grid: seq<Social>, t: int, now: int)
    requires Sorted(records) && OneEach(grid)
    ensures Sync(Sync(records, grid, t), grid, now) == Sync(records, grid, t)
    ensures var report := SyncReport(Sync(records, grid, t), grid, now);
      report.added == [] && report.changed == []
  {
    hide Sorted, At, SocialAt, Sync, StepAt, GridReport, OneEach;
    var once := Sync(records, grid, t);
    StepIs(records, SyncOp(grid, t), (0, 0));
    StepIs(once, SyncOp(grid, now), (0, 0));
    forall slot ensures At(Sync(once, grid, now), slot) == At(once, slot) {
      StepIs(records, SyncOp(grid, t), slot);
      StepIs(once, SyncOp(grid, now), slot);
      RenewedTwice(At(records, slot), SyncOp(grid, t), SyncOp(grid, now), slot);
    }
    SortedAreEqual(Sync(once, grid, now), once);
    forall s | s in grid ensures At(once, s.slot).Some? && Unchanged(At(once, s.slot).value, s) {
      StepIs(records, SyncOp(grid, t), s.slot);
      OneIsAt(grid, s);
      RenewedIsUnchanged(At(records, s.slot), SyncOp(grid, t), s);
    }
    SortedIsUnique(once);
    NothingToReport(once, grid, now);
  }

  lemma RenewedIsUnchanged(was: Option<Record>, op: Op, s: Social)
    requires op.SyncOp? && SocialAt(op.grid, s.slot) == Some(s)
    ensures StepAt(was, op, s.slot).Some? && Unchanged(StepAt(was, op, s.slot).value, s)
  {
    hide Digest, SocialAt;
  }

  lemma OneIsAt(grid: seq<Social>, s: Social)
    requires OneEach(grid) && s in grid
    ensures SocialAt(grid, s.slot) == Some(s)
  {
    SocialAtFinds(grid, s.slot);
  }

  lemma {:induction false} NothingToReport(records: seq<Record>, grid: seq<Social>, now: int)
    requires Unique(records) && OneEach(grid)
    requires forall s | s in grid :: At(records, s.slot).Some? && Unchanged(At(records, s.slot).value, s)
    ensures GridReport(records, grid, now).added == [] && GridReport(records, grid, now).changed == []
  {
    hide Find, PutAll, Unchanged, At;
    if grid != [] {
      var init, s := grid[..|grid| - 1], grid[|grid| - 1];
      assert s in grid && forall x | x in init :: x in grid;
      NothingToReport(records, init, now);
      PutAllAt(records, Synced, init, now);
      SocialAtFinds(init, s.slot);
      assert SocialAt(init, s.slot) == None;
      FoundThere(records, PutAll(records, Synced, init, now), s.slot);
    }
  }

  /** A known slot is found where it was, with what is on record for it now. */
  lemma FoundThere(records: seq<Record>, now: seq<Record>, slot: Slot)
    requires Unique(records) && Unique(now) && SamePlaces(records, now) && At(records, slot).Some?
    ensures var i := Find(now[..|records|], slot);
      i < |records| && At(now, slot) == Some(now[i])
  {
    hide Find;
    SamePlacesFind(records, now[..|records|], slot);
    var i := Find(records, slot);
    assert now[i] in now && now[i].Place() == slot;
    AtIs(now, now[i]);
  }

  // -- restoring ------------------------------------------------------------------------------------------------

  function Socials(records: seq<Record>): seq<Social> {
    seq(|records|, i requires 0 <= i < |records| => records[i].social)
  }

  function RestorePayload(records: seq<Record>): seq<Social> { Normalize(Socials(records), MAX_LINES) }

  /** What restoring offers for a slot: its social as it is kept clean, if it shows anything. */
  function Offered(r: Option<Record>): Option<Social> {
    match r
    case None => None
    case Some(record) =>
      var s := Clean(record.social, 5);
      if IsEmpty(s) then None else Some(s)
  }

  /** Restoring offers every slot on record that still shows something, in the file or lost,
      and no other, once each and in slot order. */
  lemma RestoreOffersEverySlot(records: seq<Record>, slot: Slot)
    requires Sorted(records)
    ensures SocialAt(RestorePayload(records), slot) == Offered(At(records, slot))
    ensures Ascending(RestorePayload(records))
  {
    hide At, BySlot, InOrder, Offered, SocialAt;
    BySlotOffers(records, slot);
    NormalizedAt(Socials(records), MAX_LINES, slot);
    BySlotIsClean(Socials(records), MAX_LINES);
    InOrderAscends(BySlot(Socials(records), MAX_LINES));
  }

  lemma {:induction false} BySlotOffers(records: seq<Record>, slot: Slot)
    requires Sorted(records)
    ensures var offered := BySlot(Socials(records), MAX_LINES);
      Offered(At(records, slot)) == if slot in offered then Some(offered[slot]) else None
  {
    hide Clean, IsEmpty, Before, Find, BySlot;
    if records == [] {
      NothingOffered(slot);
    } else {
      var init, last := records[..|records| - 1], records[|records| - 1];
      BySlotOffers(init, slot);
      assert Socials(records)[..|records| - 1] == Socials(init);
      assert records == init + [last];
      SortedIsUnique(records);
      if last.Place() == slot { NotBefore(init, last); }
      hide At, Socials, Sorted;
      AtAppend(init, last, slot);
      OfferedNext(Socials(records), last, slot);
    }
  }

  lemma NothingOffered(slot: Slot)
    ensures At([], slot) == None && slot !in BySlot(Socials([]), MAX_LINES)
  {}

  /** What the last social of a list does to the table. */
  lemma OfferedNext(socials: seq<Social>, last: Record, slot: Slot)
    requires socials != [] && socials[|socials| - 1] == last.social
    ensures var offered, before := BySlot(socials, MAX_LINES), BySlot(socials[..|socials| - 1], MAX_LINES);
      if last.Place() == slot && Offered(Some(last)).Some?
      then slot in offered && Some(offered[slot]) == Offered(Some(last))
      else (slot in offered <==> slot in before) && (slot in before ==> offered[slot] == before[slot])
  {
    hide IsEmpty, Strip, StripAll, DropBlanks, Cut;
  }

  lemma NotBefore(init: seq<Record>, last: Record)
    requires Unique(init + [last])
    ensures At(init, last.Place()) == None
  {
    var r := init + [last];
    forall i | 0 <= i < |init| ensures init[i].Place() != last.Place() { assert r[i].Place() != r[|init|].Place(); }
  }
}
