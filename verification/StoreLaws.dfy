/** What a sync, a mark and a report say of each slot, from what was on record and what came in. */
module StoreLaws {
  import opened Options
  import opened Text
  import opened SocialKeys
  import opened SocialValues
  import opened StoreValues
  import opened StoreRuns

  /** The same name, colour and lines, blanks at the ends of each apart. */
  predicate SameContent(a: Social, b: Social) {
    && Strip(a.name) == Strip(b.name) && a.color == b.color
    && |a.lines| == |b.lines| && forall k | 0 <= k < |a.lines| :: Strip(a.lines[k]) == Strip(b.lines[k])
  }

  /** Two socials share a digest exactly when they have the same content. */
  lemma DigestIs(a: Social, b: Social)
    ensures Digest(a) == Digest(b) <==> SameContent(a, b)
  {
    hide Strip;
    if Digest(a) == Digest(b) {
      assert |StripAll(a.lines)| == |StripAll(b.lines)|;
      forall k | 0 <= k < |a.lines| ensures Strip(a.lines[k]) == Strip(b.lines[k]) {
        assert StripAll(a.lines)[k] == StripAll(b.lines)[k];
      }
    }
    if SameContent(a, b) { assert StripAll(a.lines) == StripAll(b.lines); }
  }

  /** By page, and on a page by button. */
  predicate Precedes(a: Slot, b: Slot) { a.0 < b.0 || (a.0 == b.0 && a.1 < b.1) }

  ghost predicate InSlotOrder(records: seq<Record>) {
    forall i, j | 0 <= i < j < |records| :: Precedes(records[i].social.slot, records[j].social.slot)
  }

  lemma SortedIs(records: seq<Record>)
    ensures Sorted(records) <==> InSlotOrder(records)
  {
    if InSlotOrder(records) {
      forall i, j | 0 <= i < j < |records| ensures Before(records[i].Place(), records[j].Place()) {
        assert Precedes(records[i].social.slot, records[j].social.slot);
      }
    }
  }

  // -- a sync -------------------------------------------------------------------------------------

  /** What a sync makes of a slot's record. A slot that is new is the game's. One whose content is
      still what we wrote keeps all that is on record about it. One that did not change since it
      was last seen in the file is left alone. Any other is the game's from now on. One the file
      no longer has is kept and flagged. */
  ghost predicate SyncedTo(was: Option<Record>, s: Option<Social>, now: int, after: Option<Record>) {
    match (was, s)
    case (None, None) => after.None?
    case (None, Some(social)) => after == Some(Record(social, Game, "", now, now, None, true))
    case (Some(r), None) => after == Some(if r.inFile then r.(inFile := false, updatedAt := now) else r)
    case (Some(r), Some(social)) =>
      if r.written == Some(Digest(social)) then after == Some(r.(social := social, inFile := true))
      else if SameContent(r.social, social) && r.inFile then after == was
      else after == Some(Record(social, Game, "", r.firstSeen, now, None, true))
  }

  lemma SyncsEachSlot(records: seq<Record>, grid: seq<Social>, now: int, slot: Slot)
    requires Sorted(records) && OneEach(grid)
    ensures SyncedTo(At(records, slot), SocialAt(grid, slot), now, At(Sync(records, grid, now), slot))
    ensures InSlotOrder(Sync(records, grid, now))
  {
    hide Sorted, At, Sync, SocialAt, Digest, SameContent, InSlotOrder;
    SortedIs(Sync(records, grid, now));
    SortedIsUnique(records);
    SyncAt(records, grid, now, slot);
    if At(records, slot).Some? && SocialAt(grid, slot).Some? {
      DigestIs(At(records, slot).value.social, SocialAt(grid, slot).value);
    }
  }

  // -- a mark -------------------------------------------------------------------------------------

  /** What marking a social as written makes of its slot's record. Its origin is the one given for
      the slot, or else the one it had, or else, for a slot not on record, the one given for the
      write; its source follows the same way, but a slot given an origin and no source takes the
      write's. */
  ghost predicate MarkedTo(was: Option<Record>, s: Social, mark: Mark, now: int, after: Option<Record>) {
    && after.Some?
    && var r := after.value;
       && r.social == s && r.written == Some(Digest(s)) && r.inFile && r.updatedAt == now
       && r.firstSeen == (if was.Some? then was.value.firstSeen else now)
       && r.origin == (if s.slot in mark.origins then mark.origins[s.slot]
                       else if was.Some? then was.value.origin else mark.origin)
       && r.source == (if s.slot in mark.sources then mark.sources[s.slot]
                       else if was.Some? && s.slot !in mark.origins then was.value.source else mark.source)
  }

  lemma MarksEachSlot(records: seq<Record>, socials: seq<Social>, mark: Mark, now: int, slot: Slot)
    requires Sorted(records)
    ensures var b, after := BySlot(socials, 5), At(MarkWritten(records, socials, mark, now), slot);
      if slot in b then b[slot].slot == slot && MarkedTo(At(records, slot), b[slot], mark, now, after)
      else after == At(records, slot)
    ensures InSlotOrder(MarkWritten(records, socials, mark, now))
  {
    hide Sorted, At, MarkWritten, BySlot, Digest, Normalize, SocialAt, InSlotOrder;
    SortedIs(MarkWritten(records, socials, mark, now));
    SortedIsUnique(records);
    MarkAt(records, socials, mark, now, slot);
    NormalizedAt(socials, 5, slot);
    BySlotSlots(socials, 5);
  }

  lemma BySlotSlots(socials: seq<Social>, most: nat)
    ensures Slotted(BySlot(socials, most))
  {
    hide IsClean;
    BySlotIsClean(socials, most);
  }

  /** A save that gives no origins relabels nothing that was on record. */
  lemma PlainMarksKeepOrigins(records: seq<Record>, socials: seq<Social>, mark: Mark, now: int, slot: Slot)
    requires Sorted(records) && mark.origins == map[] && mark.sources == map[] && At(records, slot).Some?
    ensures var was, after := At(records, slot).value, At(MarkWritten(records, socials, mark, now), slot);
      after.Some? && after.value.origin == was.origin && after.value.source == was.source &&
      after.value.firstSeen == was.firstSeen
  {
    hide Sorted, At, MarkWritten, BySlot, Digest;
    MarksEachSlot(records, socials, mark, now, slot);
  }

  // -- a report --------------------------------------------------------------------------------------

  /** Whether a slot on record has changed, by what the file has there now. */
  predicate Differs(r: Record, s: Social) { r.written != Some(Digest(s)) && !(r.inFile && SameContent(r.social, s)) }

  /** The slots of the grid that hold, in its order. */
  function Those(grid: seq<Social>, holds: Social -> bool): seq<Slot> {
    if grid == [] then []
    else
      var s := grid[|grid| - 1];
      Those(grid[..|grid| - 1], holds) + if holds(s) then [s.slot] else []
  }

  function Added(records: seq<Record>): Social -> bool { (s: Social) => At(records, s.slot).None? }

  function Changed(records: seq<Record>): Social -> bool {
    (s: Social) => match At(records, s.slot) case None => false case Some(r) => Differs(r, s)
  }

  function Same(records: seq<Record>): Social -> bool {
    (s: Social) => match At(records, s.slot) case None => false case Some(r) => !Differs(r, s)
  }

  /** A sync reports as added the slots not on record, as changed those on record that differ, as
      the same the rest of what the file has, each in the file's order. */
  lemma {:induction false} ReportsTheGrid(records: seq<Record>, grid: seq<Social>, now: int)
    requires Unique(records) && OneEach(grid)
    ensures var report := GridReport(records, grid, now);
      && report.added == Those(grid, Added(records))
      && report.changed == Those(grid, Changed(records))
      && report.same == Those(grid, Same(records))
  {
    hide Find, PutAll, At, Unchanged, SameContent;
    if grid != [] {
      var init, s := grid[..|grid| - 1], grid[|grid| - 1];
      ReportsTheGrid(records, init, now);
      PutAllAt(records, Synced, init, now);
      SocialAtFinds(init, s.slot);
      assert SocialAt(init, s.slot) == None;
      var before := PutAll(records, Synced, init, now);
      SamePlacesThere(records, before, s.slot);
      if At(records, s.slot).Some? {
        FoundThere(records, before, s.slot);
        UnchangedIs(At(records, s.slot).value, s);
      }
    }
  }

  lemma SamePlacesThere(records: seq<Record>, now: seq<Record>, slot: Slot)
    requires SamePlaces(records, now)
    ensures Find(now[..|records|], slot) == Find(records, slot)
    ensures At(records, slot).None? <==> Find(records, slot) == |records|
  {
    SamePlacesFind(records, now[..|records|], slot);
  }

  lemma UnchangedIs(r: Record, s: Social)
    ensures Unchanged(r, s) <==> !Differs(r, s)
  {
    hide Digest;
    DigestIs(r.social, s);
  }

  /** The slots on record that the file does not have: all of them are lost,
      those lost before included, and nothing else is. */
  lemma ReportsTheLost(records: seq<Record>, grid: seq<Social>, now: int, slot: Slot)
    requires Unique(records) && OneEach(grid)
    ensures slot in SyncReport(records, grid, now).lost <==>
      At(records, slot).Some? && forall s | s in grid :: s.slot != slot
    ensures var lost := SyncReport(records, grid, now).lost;
      forall i, j | 0 <= i < j < |lost| :: lost[i] != lost[j]
  {
    hide At, PutAll, Find, Fresh, Renew;
    PutAllAt(records, Synced, grid, now);
    var put := PutAll(records, Synced, grid, now);
    LostAre(put, SlotsOf(grid), slot);
    LostDiffer(put, SlotsOf(grid));
    SocialAtFinds(grid, slot);
    assert slot in SlotsOf(grid) <==> exists s | s in grid :: s.slot == slot;
    AtSome(put, slot);
  }

  lemma AtSome(records: seq<Record>, slot: Slot)
    ensures At(records, slot).Some? <==> exists r | r in records :: r.Place() == slot
  {
    var i := Find(records, slot);
    if i < |records| { assert records[i] in records; }
  }

  lemma {:induction false} LostAre(records: seq<Record>, seen: set<Slot>, slot: Slot)
    ensures slot in LostSlots(records, seen) <==> slot !in seen && exists r | r in records :: r.Place() == slot
  {
    if records != [] {
      var init, last := records[..|records| - 1], records[|records| - 1];
      LostAre(init, seen, slot);
      assert forall r :: r in records <==> r in init || r == last;
    }
  }

  lemma {:induction false} LostDiffer(records: seq<Record>, seen: set<Slot>)
    requires Unique(records)
    ensures var lost := LostSlots(records, seen); forall i, j | 0 <= i < j < |lost| :: lost[i] != lost[j]
  {
    if records != [] {
      var init, last := records[..|records| - 1], records[|records| - 1];
      LostDiffer(init, seen);
      LostAre(init, seen, last.Place());
      assert forall k | 0 <= k < |init| :: init[k].Place() != last.Place();
      hide Unique;
      var lost := LostSlots(init, seen);
      assert last.Place() !in lost;
    }
  }
}
