/** The mirror of a character's socials, as values: what syncing, marking and forgetting do to
    its records, and what holds over any run of them. */
module StoreValues {
  import opened Options
  import opened Text
  import opened SocialKeys
  import opened SocialValues

  datatype Origin = Game | Local | Imported

  /** What a digest is taken of; two socials share a digest exactly when they share this. */
  datatype Payload = Payload(name: string, color: int, lines: seq<string>)

  function Digest(s: Social): Payload { Payload(Strip(s.name), s.color, StripAll(s.lines)) }

  datatype Record = Record(social: Social, origin: Origin, source: string, firstSeen: int, updatedAt: int,
                           written: Option<Payload>, inFile: bool)
  {
    function Place(): Slot { social.slot }
  }

  datatype Report = Report(added: seq<Slot>, changed: seq<Slot>, lost: seq<Slot>, same: seq<Slot>)

  // -- records by slot -----------------------------------------------------------------------

  /** The last record of a slot, or |records|. */
  function Find(records: seq<Record>, slot: Slot): (i: nat)
    ensures i <= |records|
    ensures i < |records| ==> records[i].Place() == slot
    ensures i == |records| ==> forall r | r in records :: r.Place() != slot
  {
    if records == [] then 0
    else if records[|records| - 1].Place() == slot then |records| - 1
    else
      var i := Find(records[..|records| - 1], slot);
      assert forall r | r in records :: r in records[..|records| - 1] || r == records[|records| - 1];
      if i == |records| - 1 then |records| else i
  }

  function At(records: seq<Record>, slot: Slot): Option<Record> {
    var i := Find(records, slot);
    if i < |records| then Some(records[i]) else None
  }

  ghost predicate Unique(records: seq<Record>) {
    forall i, j | 0 <= i < j < |records| :: records[i].Place() != records[j].Place()
  }

  ghost predicate Sorted(records: seq<Record>) {
    forall i, j | 0 <= i < j < |records| :: Before(records[i].Place(), records[j].Place())
  }

  lemma AtIs(records: seq<Record>, r: Record)
    requires Unique(records) && r in records
    ensures At(records, r.Place()) == Some(r)
  {}

  // -- sorting by slot -----------------------------------------------------------------------

  /** Into its place, after any record of the same slot. */
  function Insert(sorted: seq<Record>, r: Record): seq<Record> {
    if sorted == [] || !Before(r.Place(), sorted[|sorted| - 1].Place()) then sorted + [r]
    else Insert(sorted[..|sorted| - 1], r) + [sorted[|sorted| - 1]]
  }

  function SortBySlot(records: seq<Record>): seq<Record> {
    if records == [] then [] else Insert(SortBySlot(records[..|records| - 1]), records[|records| - 1])
  }

  lemma {:induction false} InsertIs(sorted: seq<Record>, r: Record)
    ensures forall x :: x in Insert(sorted, r) <==> x in sorted || x == r
    ensures Sorted(sorted) && (forall x | x in sorted :: x.Place() != r.Place()) ==> Sorted(Insert(sorted, r))
  {
    hide Before;
    if sorted != [] && Before(r.Place(), sorted[|sorted| - 1].Place()) {
      var init, last := sorted[..|sorted| - 1], sorted[|sorted| - 1];
      InsertIs(init, r);
      assert forall x :: x in sorted <==> x in init || x == last;
      var front := Insert(init, r);
      if Sorted(sorted) && forall x | x in sorted :: x.Place() != r.Place() {
        assert Sorted(front);
        assert forall i | 0 <= i < |front| :: front[i] in front;
        assert forall x | x in init :: Before(x.Place(), last.Place());
      }
    } else if Sorted(sorted) && (forall x | x in sorted :: x.Place() != r.Place()) && sorted != [] {
      AppendSorted(sorted, r);
    }
  }

  lemma AppendSorted(sorted: seq<Record>, r: Record)
    requires sorted != [] && Sorted(sorted) && !Before(r.Place(), sorted[|sorted| - 1].Place())
    requires forall x | x in sorted :: x.Place() != r.Place()
    ensures Sorted(sorted + [r])
  {
    var last := sorted[|sorted| - 1];
    assert Before(last.Place(), r.Place()) by { Trichotomy(last.Place(), r.Place()); }
    forall i | 0 <= i < |sorted| ensures Before(sorted[i].Place(), r.Place()) {
      if i < |sorted| - 1 { BeforeChains(sorted[i].Place(), last.Place(), r.Place()); }
    }
  }

  lemma Trichotomy(a: Slot, b: Slot)
    requires a != b && !Before(b, a)
    ensures Before(a, b)
  {}

  lemma BeforeChains(a: Slot, b: Slot, c: Slot)
    requires Before(a, b) && Before(b, c)
    ensures Before(a, c)
  {}

  lemma {:induction false} SortIs(records: seq<Record>)
    ensures forall x :: x in SortBySlot(records) <==> x in records
    ensures Unique(records) ==> Sorted(SortBySlot(records))
  {
    hide Before;
    if records != [] {
      var init, last := records[..|records| - 1], records[|records| - 1];
      SortIs(init);
      InsertIs(SortBySlot(init), last);
      assert forall x :: x in records <==> x in init || x == last;
      if Unique(records) { assert forall x | x in init :: x.Place() != last.Place(); }
    }
  }

  lemma SortedIsUnique(records: seq<Record>)
    requires Sorted(records)
    ensures Unique(records)
  {}

  /** Sorting changes no lookup. */
  lemma SortKeepsAt(records: seq<Record>, slot: Slot)
    requires Unique(records)
    ensures At(SortBySlot(records), slot) == At(records, slot) && Sorted(SortBySlot(records))
  {
    hide Before, SortBySlot;
    SortIs(records);
    SortedIsUnique(SortBySlot(records));
    var i := Find(records, slot);
    if i < |records| { AtIs(SortBySlot(records), records[i]); }
  }

  /** Two sorted lists with the same lookups are the same list. */
  lemma {:induction false} SortedAreEqual(a: seq<Record>, b: seq<Record>)
    requires Sorted(a) && Sorted(b)
    requires forall slot :: At(a, slot) == At(b, slot)
    ensures a == b
  {
    hide Before;
    forall r | r in a ensures r in b { SortedIsUnique(a); AtIs(a, r); }
    forall r | r in b ensures r in a { SortedIsUnique(b); AtIs(b, r); }
    SameMembers(a, b);
  }

  lemma LastIsLast(a: seq<Record>, r: Record)
    requires Sorted(a) && r in a
    ensures r == a[|a| - 1] || Before(r.Place(), a[|a| - 1].Place())
  {
    hide Before;
  }

  lemma InitMembers(a: seq<Record>)
    requires Sorted(a) && a != []
    ensures Sorted(a[..|a| - 1]) && forall r :: r in a[..|a| - 1] <==> r in a && r != a[|a| - 1]
  {
    assert forall i | 0 <= i < |a| - 1 :: a[i] != a[|a| - 1] by {
      forall i | 0 <= i < |a| - 1 ensures a[i] != a[|a| - 1] { assert Before(a[i].Place(), a[|a| - 1].Place()); }
    }
  }

  lemma {:induction false} SameMembers(a: seq<Record>, b: seq<Record>)
    requires Sorted(a) && Sorted(b) && forall r :: r in a <==> r in b
    ensures a == b
  {
    hide Sorted;
    assert forall i | 0 <= i < |b| :: b[i] in a;
    assert forall i | 0 <= i < |a| :: a[i] in b;
    if a != [] {
      assert a[0] in b;
      var x, y := a[|a| - 1], b[|b| - 1];
      assert x in a && y in b;
      LastIsLast(a, y);
      LastIsLast(b, x);
      assert x == y;
      InitMembers(a);
      InitMembers(b);
      SameMembers(a[..|a| - 1], b[..|b| - 1]);
      assert a == a[..|a| - 1] + [x] && b == b[..|b| - 1] + [y];
    }
  }

  // -- syncing and marking ---------------------------------------------------------------------

  /** What a write records about itself. */
  datatype Mark = Mark(origin: Origin, source: string, origins: map<Slot, Origin>, sources: map<Slot, string>)

  /** Why records change: the file was read, or we wrote it. */
  datatype Change = Synced | Written(mark: Mark)

  function Fresh(change: Change, s: Social, now: int): Record {
    match change
    case Synced => Record(s, Game, "", now, now, None, true)
    case Written(mark) =>
      Record(s, if s.slot in mark.origins then mark.origins[s.slot] else mark.origin,
             if s.slot in mark.sources then mark.sources[s.slot] else mark.source,
             now, now, Some(Digest(s)), true)
  }

  /** A record whose slot came up again. A read keeps the origin of a value that is still the
      one we wrote, or that did not change while in the file; otherwise the game has it. */
  function Renew(change: Change, r: Record, s: Social, now: int): Record {
    match change
    case Synced =>
      if r.written == Some(Digest(s)) then r.(inFile := true, social := s)
      else if Digest(r.social) == Digest(s) && r.inFile then r
      else r.(inFile := true, social := s, origin := Game, source := "", written := None, updatedAt := now)
    case Written(mark) =>
      r.(origin := if s.slot in mark.origins then mark.origins[s.slot] else r.origin,
         source := if s.slot in mark.sources then mark.sources[s.slot]
                   else if s.slot in mark.origins then mark.source else r.source,
         social := s, updatedAt := now, written := Some(Digest(s)), inFile := true)
  }

  /** One social against the records there were when the pass began. */
  function Put(records: seq<Record>, known: nat, change: Change, s: Social, now: int): seq<Record>
    requires known <= |records|
  {
    var i := Find(records[..known], s.slot);
    if i < known then records[i := Renew(change, records[i], s, now)] else records + [Fresh(change, s, now)]
  }

  function PutAll(records: seq<Record>, change: Change, socials: seq<Social>, now: int): (r: seq<Record>)
    ensures |r| >= |records|
  {
    if socials == [] then records
    else Put(PutAll(records, change, socials[..|socials| - 1], now), |records|, change, socials[|socials| - 1], now)
  }

  /** A record whose slot the file no longer has. */
  function Gone(r: Record, now: int): Record {
    if r.inFile then r.(inFile := false, updatedAt := now) else r
  }

  function SlotsOf(socials: seq<Social>): set<Slot> { set s | s in socials :: s.slot }

  function FlagLost(records: seq<Record>, seen: set<Slot>, now: int): seq<Record> {
    seq(|records|, i requires 0 <= i < |records| => if records[i].Place() in seen then records[i]
      else Gone(records[i], now))
  }

  function Sync(records: seq<Record>, grid: seq<Social>, now: int): seq<Record> {
    SortBySlot(FlagLost(PutAll(records, Synced, grid, now), SlotsOf(grid), now))
  }

  function MarkWritten(records: seq<Record>, socials: seq<Social>, mark: Mark, now: int): seq<Record> {
    SortBySlot(PutAll(records, Written(mark), Normalize(socials, MAX_LINES), now))
  }

  function Forget(records: seq<Record>, slots: set<Slot>): seq<Record> {
    if records == [] then []
    else
      var last := records[|records| - 1];
      Forget(records[..|records| - 1], slots) + if last.Place() in slots then [] else [last]
  }

  // -- what a sync reports -------------------------------------------------------------------------

  predicate Unchanged(r: Record, s: Social) {
    r.written == Some(Digest(s)) || (Digest(r.social) == Digest(s) && r.inFile)
  }

  /** The slots that are new, that changed and that did not, as the grid comes to them. */
  function GridReport(records: seq<Record>, grid: seq<Social>, now: int): Report {
    if grid == [] then Report([], [], [], [])
    else
      var init, s := grid[..|grid| - 1], grid[|grid| - 1];
      var before := PutAll(records, Synced, init, now);
      var report := GridReport(records, init, now);
      var i := Find(before[..|records|], s.slot);
      if i == |records| then report.(added := report.added + [s.slot])
      else if Unchanged(before[i], s) then report.(same := report.same + [s.slot])
      else report.(changed := report.changed + [s.slot])
  }

  function LostSlots(records: seq<Record>, seen: set<Slot>): seq<Slot> {
    if records == [] then []
    else
      var last := records[|records| - 1];
      LostSlots(records[..|records| - 1], seen) + if last.Place() in seen then [] else [last.Place()]
  }

  function SyncReport(records: seq<Record>, grid: seq<Social>, now: int): Report {
    GridReport(records, grid, now).(lost := LostSlots(PutAll(records, Synced, grid, now), SlotsOf(grid)))
  }

  // -- slot by slot -----------------------------------------------------------------------------------

  /** The last social of a slot. */
  ghost function SocialAt(socials: seq<Social>, slot: Slot): Option<Social> {
    if socials == [] then None
    else if socials[|socials| - 1].slot == slot then Some(socials[|socials| - 1])
    else SocialAt(socials[..|socials| - 1], slot)
  }

  lemma {:induction false} SocialAtFinds(socials: seq<Social>, slot: Slot)
    ensures SocialAt(socials, slot).Some? <==> slot in SlotsOf(socials)
    ensures SocialAt(socials, slot).Some? ==>
      SocialAt(socials, slot).value in socials && SocialAt(socials, slot).value.slot == slot
  {
    if socials != [] {
      var init, last := socials[..|socials| - 1], socials[|socials| - 1];
      SocialAtFinds(init, slot);
      assert forall s :: s in socials <==> s in init || s == last;
    }
  }

  lemma AtAppend(records: seq<Record>, r: Record, slot: Slot)
    ensures At(records + [r], slot) == if r.Place() == slot then Some(r) else At(records, slot)
  {
    assert (records + [r])[..|records|] == records;
  }

  /** What one slot's record becomes. */
  ghost function Became(was: Option<Record>, s: Option<Social>, change: Change, now: int): Option<Record> {
    match s
    case None => was
    case Some(social) => match was
      case None => Some(Fresh(change, social, now))
      case Some(r) => Some(Renew(change, r, social, now))
  }

  ghost predicate SamePlaces(a: seq<Record>, b: seq<Record>) {
    |a| <= |b| && forall i | 0 <= i < |a| :: a[i].Place() == b[i].Place()
  }

  lemma {:induction false} SamePlacesFind(a: seq<Record>, b: seq<Record>, slot: Slot)
    requires |a| == |b| && SamePlaces(a, b)
    ensures Find(a, slot) == Find(b, slot)
  {
    if a != [] { SamePlacesFind(a[..|a| - 1], b[..|b| - 1], slot); }
  }

  lemma AtUpdate(records: seq<Record>, i: nat, r: Record, slot: Slot)
    requires Unique(records) && i < |records| && r.Place() == records[i].Place()
    ensures Unique(records[i := r])
    ensures At(records[i := r], slot) == if r.Place() == slot then Some(r) else At(records, slot)
  {
    hide Find;
    var after := records[i := r];
    SamePlacesFind(records, after, slot);
    assert records[i] in records;
  }

  /** A pass over one social a slot renews the records it meets and adds the rest. */
  lemma {:induction false} PutAllAt(records: seq<Record>, change: Change, socials: seq<Social>, now: int)
    requires Unique(records) && OneEach(socials)
    ensures var r := PutAll(records, change, socials, now);
      Unique(r) && SamePlaces(records, r) &&
      forall slot :: At(r, slot) == Became(At(records, slot), SocialAt(socials, slot), change, now)
  {
    hide Find, Fresh, Renew;
    if socials != [] {
      var init, s := socials[..|socials| - 1], socials[|socials| - 1];
      PutAllAt(records, change, init, now);
      SocialAtFinds(init, s.slot);
      assert SocialAt(init, s.slot) == None;
      var before := PutAll(records, change, init, now);
      PutAt(records, before, change, s, now);
    }
  }

  lemma PlacesKept(change: Change, r: Record, s: Social, now: int)
    ensures Fresh(change, s, now).Place() == s.slot
    ensures r.Place() == s.slot ==> Renew(change, r, s, now).Place() == s.slot
  {}

  lemma PutAt(records: seq<Record>, before: seq<Record>, change: Change, s: Social, now: int)
    requires Unique(records) && Unique(before) && SamePlaces(records, before) &&
      At(before, s.slot) == At(records, s.slot)
    ensures var r := Put(before, |records|, change, s, now);
      Unique(r) && SamePlaces(records, r) &&
      forall slot :: At(r, slot) == if slot == s.slot then Became(At(records, slot), Some(s), change, now)
        else At(before, slot)
  {
    hide Find, Fresh, Renew;
    var known := |records|;
    SamePlacesFind(records, before[..known], s.slot);
    var i := Find(records, s.slot);
    var r := Put(before, known, change, s, now);
    if i < known {
      assert before[i] in before && before[i].Place() == s.slot;
      AtIs(before, before[i]);
      PlacesKept(change, before[i], s, now);
      forall slot ensures At(r, slot) == if slot == s.slot then Some(r[i]) else At(before, slot) {
        AtUpdate(before, i, r[i], slot);
      }
      AtUpdate(before, i, r[i], s.slot);
    } else {
      var added := Fresh(change, s, now);
      assert added.Place() == s.slot by { PlacesKept(change, added, s, now); }
      assert forall x | x in before :: x.Place() != s.slot;
      forall slot ensures At(r, slot) == if slot == s.slot then Some(added) else At(before, slot) {
        AtAppend(before, added, slot);
      }
      assert forall j | 0 <= j < |before| :: before[j] in before;
    }
  }

  lemma {:induction false} FlagLostAt(records: seq<Record>, seen: set<Slot>, now: int, slot: Slot)
    ensures At(FlagLost(records, seen, now), slot) ==
      match At(records, slot) { case None => None case Some(r) => Some(if slot in seen then r else Gone(r, now)) }
    ensures Unique(records) ==> Unique(FlagLost(records, seen, now))
  {
    hide Gone;
    var after := FlagLost(records, seen, now);
    assert forall i | 0 <= i < |records| :: after[i].Place() == records[i].Place() by {
      forall i | 0 <= i < |records| ensures after[i].Place() == records[i].Place() { GonePlace(records[i], now); }
    }
    SamePlacesFind(records, after, slot);
  }

  lemma GonePlace(r: Record, now: int)
    ensures Gone(r, now).Place() == r.Place()
  {}

  /** A sync, slot by slot: new slots are the game's, known ones are renewed, missing ones kept. */
  lemma SyncAt(records: seq<Record>, grid: seq<Social>, now: int, slot: Slot)
    requires Unique(records) && OneEach(grid)
    ensures Sorted(Sync(records, grid, now))
    ensures At(Sync(records, grid, now), slot) ==
      match SocialAt(grid, slot)
      case Some(s) => Became(At(records, slot), Some(s), Synced, now)
      case None => match At(records, slot) { case None => None case Some(r) => Some(Gone(r, now)) }
  {
    hide At, Fresh, Renew, Gone, FlagLost, SortBySlot, PutAll;
    PutAllAt(records, Synced, grid, now);
    var put := PutAll(records, Synced, grid, now);
    FlagLostAt(put, SlotsOf(grid), now, slot);
    SortKeepsAt(FlagLost(put, SlotsOf(grid), now), slot);
    SocialAtFinds(grid, slot);
  }

  lemma InOrderAt(m: map<Slot, Social>, slot: Slot)
    requires Slotted(m)
    ensures OneEach(InOrder(m)) && SocialAt(InOrder(m), slot) == if slot in m then Some(m[slot]) else None
  {
    hide InOrder;
    InOrderMembers(m);
    InOrderAscends(m);
    AscendingIsOneEach(InOrder(m));
    SocialAtFinds(InOrder(m), slot);
    if slot in m { assert m[slot] in InOrder(m); }
  }

  lemma NormalizedAt(socials: seq<Social>, most: nat, slot: Slot)
    ensures OneEach(Normalize(socials, most))
    ensures SocialAt(Normalize(socials, most), slot) ==
      if slot in BySlot(socials, most) then Some(BySlot(socials, most)[slot]) else None
  {
    hide BySlot, InOrder, IsClean;
    BySlotIsClean(socials, most);
    InOrderAt(BySlot(socials, most), slot);
  }

  /** Marking, slot by slot. */
  lemma MarkAt(records: seq<Record>, socials: seq<Social>, mark: Mark, now: int, slot: Slot)
    requires Unique(records)
    ensures Sorted(MarkWritten(records, socials, mark, now))
    ensures At(MarkWritten(records, socials, mark, now), slot) ==
      Became(At(records, slot), SocialAt(Normalize(socials, MAX_LINES), slot), Written(mark), now)
  {
    hide At, Fresh, Renew, SortBySlot, PutAll, Normalize;
    NormalizedAt(socials, MAX_LINES, slot);
    PutAllAt(records, Written(mark), Normalize(socials, MAX_LINES), now);
    SortKeepsAt(PutAll(records, Written(mark), Normalize(socials, MAX_LINES), now), slot);
  }

  lemma {:induction false} ForgetMembers(records: seq<Record>, slots: set<Slot>)
    ensures forall r :: r in Forget(records, slots) <==> r in records && r.Place() !in slots
  {
    if records != [] {
      var init, last := records[..|records| - 1], records[|records| - 1];
      ForgetMembers(init, slots);
      assert forall r :: r in records <==> r in init || r == last;
    }
  }

  lemma {:induction false} ForgetSorts(records: seq<Record>, slots: set<Slot>)
    requires Sorted(records)
    ensures Sorted(Forget(records, slots))
  {
    hide Before;
    if records != [] {
      var init, last := records[..|records| - 1], records[|records| - 1];
      ForgetSorts(init, slots);
      ForgetMembers(init, slots);
      var kept := Forget(init, slots);
      assert forall r | r in init :: Before(r.Place(), last.Place());
      assert forall i | 0 <= i < |kept| :: kept[i] in kept;
    }
  }

  lemma ForgetAt(records: seq<Record>, slots: set<Slot>, slot: Slot)
    requires Sorted(records)
    ensures Sorted(Forget(records, slots))
    ensures At(Forget(records, slots), slot) == if slot in slots then None else At(records, slot)
  {
    hide Before, Forget, Find;
    ForgetMembers(records, slots);
    ForgetSorts(records, slots);
    var after := Forget(records, slots);
    SortedIsUnique(records);
    SortedIsUnique(after);
    var i := Find(records, slot);
    if i < |records| && slot !in slots { AtIs(after, records[i]); }
  }
}
