/** The loops that read and write the [Socials] section, proved against its specification. */
module Socials {
  import opened Options
  import opened Text
  import opened EqIni
  import opened SocialKeys
  import opened SocialValues
  import opened SocialLines
  import opened SocialWriter
  import opened SocialWriting

  const DEFAULT_PAGES := 10
  const DEFAULT_BUTTONS := 10

  /** The dimensions a file is found to have, and its socials in slot order. */
  datatype Grid = Grid(
    pages: int,
    buttonsPerPage: int,
    linesPerButton: nat,
    pageOrigin: nat,
    buttonOrigin: nat,
    socials: seq<Social>)
  {
    predicate ContainsSlot(slot: Slot) {
      pageOrigin <= slot.0 < pageOrigin + pages && buttonOrigin <= slot.1 < buttonOrigin + buttonsPerPage
    }
  }

  /** Found so far for one slot. */
  datatype Draft = Draft(name: string, color: int, lines: map<nat, string>)

  const BLANK := Draft("", DEFAULT_COLOR, map[])

  /** One key's worth of a draft. */
  function SetField(draft: Draft, field: Field, value: string): Draft {
    match field
    case Name => draft.(name := Plain(value))
    case Color => draft.(color := ColorFrom(value))
    case Line(index) => draft.(lines := draft.lines[index := Plain(value)])
  }

  /** A draft holds what the lines so far say of its slot. */
  ghost predicate Drafted(body: seq<string>, slot: Slot, draft: Draft) {
    && draft.name == NameIn(body, slot) && draft.color == ColorIn(body, slot)
    && forall index: nat :: LineAt(body, slot, index) == if index in draft.lines then [draft.lines[index]] else []
  }

  lemma DraftStep(body: seq<string>, line: string, slot: Slot, draft: Draft)
    requires Drafted(body, slot, draft)
    ensures var entry := EntryOf(line);
      Drafted(body + [line], slot,
              if entry.Some? && entry.value.key.slot == slot
              then SetField(draft, entry.value.key.field, entry.value.value) else draft)
  {
    hide EntryOf, Value, Plain, ColorFrom;
    forall key: Key ensures Value(body + [line], key) ==
      if EntryOf(line).Some? && EntryOf(line).value.key == key then Some(EntryOf(line).value.value)
      else Value(body, key)
    {
      ValueAfter(body, line, key);
    }
  }

  lemma BlankDraft(body: seq<string>, slot: Slot)
    requires slot !in Slots(body)
    ensures Drafted(body, slot, BLANK)
  {
    hide Value, Slots;
    forall key: Key | key.slot == slot ensures Value(body, key) == None {
      if Value(body, key).Some? { ValueIsSeen(body, key); }
    }
    assert Key(slot, Name).slot == slot && Key(slot, Color).slot == slot;
    forall index: nat ensures LineAt(body, slot, index) == [] { assert Key(slot, Line(index)).slot == slot; }
  }

  /** The order in which slots were first seen, each once. */
  ghost predicate Order(order: seq<Slot>, drafts: map<Slot, Draft>) {
    (forall slot :: slot in drafts <==> slot in order) && forall i, j | 0 <= i < j < |order| :: order[i] != order[j]
  }

  /** The extremes of a grid so far; origins count down from 1. */
  datatype Extent = Extent(maxPage: nat, maxButton: nat, minPage: nat, minButton: nat)
  {
    function Widen(slot: Slot): Extent {
      Extent(if slot.0 > maxPage then slot.0 else maxPage, if slot.1 > maxButton then slot.1 else maxButton,
             if slot.0 < minPage then slot.0 else minPage, if slot.1 < minButton then slot.1 else minButton)
    }
  }

  ghost predicate Spans(e: Extent, slots: set<Slot>) {
    && (forall slot | slot in slots :: e.minPage <= slot.0 <= e.maxPage && e.minButton <= slot.1 <= e.maxButton)
    && e.minPage <= 1 && e.minButton <= 1
    && (e.minPage == 0 ==> exists slot | slot in slots :: slot.0 == 0)
    && (e.minButton == 0 ==> exists slot | slot in slots :: slot.1 == 0)
    && (e.maxPage > 0 ==> exists slot | slot in slots :: slot.0 == e.maxPage)
    && (e.maxButton > 0 ==> exists slot | slot in slots :: slot.1 == e.maxButton)
  }

  lemma SpansWiden(e: Extent, slots: set<Slot>, slot: Slot)
    requires Spans(e, slots)
    ensures Spans(e.Widen(slot), slots + {slot})
  {
    assert slot in slots + {slot} && forall s | s in slots :: s in slots + {slot};
  }

  lemma PrefixStep(body: seq<string>, n: nat)
    requires n < |body|
    ensures body[..n + 1] == body[..n] + [body[n]]
    ensures Slots(body[..n + 1]) == Slots(body[..n]) + SlotOf(body[n])
    ensures MaxLine(body[..n + 1]) == match EntryOf(body[n])
      case None => MaxLine(body[..n])
      case Some(entry) =>
        if entry.key.field.Line? && entry.key.field.index > MaxLine(body[..n])
        then entry.key.field.index else MaxLine(body[..n])
  {
    hide EntryOf, SlotOf;
    assert body[..n + 1][..n] == body[..n];
  }

  ghost predicate AllDrafted(body: seq<string>, drafts: map<Slot, Draft>) {
    && (forall slot :: slot in drafts <==> slot in Slots(body))
    && forall slot | slot in drafts :: Drafted(body, slot, drafts[slot])
  }

  lemma AllDraftedStep(body: seq<string>, line: string, drafts: map<Slot, Draft>, after: map<Slot, Draft>)
    requires AllDrafted(body, drafts) && Slots(body + [line]) == Slots(body) + SlotOf(line)
    requires match EntryOf(line)
      case None => after == drafts
      case Some(entry) =>
        var slot := entry.key.slot;
        after == drafts[slot := SetField(if slot in drafts then drafts[slot] else BLANK, entry.key.field, entry.value)]
    ensures AllDrafted(body + [line], after)
  {
    hide EntryOf, Drafted, Slots, SetField;
    forall slot | slot in after ensures Drafted(body + [line], slot, after[slot]) {
      if slot !in drafts { BlankDraft(body, slot); }
      DraftStep(body, line, slot, if slot in drafts then drafts[slot] else BLANK);
    }
  }

  /** One pass over the section: a draft a slot, in order of appearance, and the extremes. */
  method ScanDrafts(body: seq<string>)
    returns (drafts: map<Slot, Draft>, order: seq<Slot>, maxLine: nat, extent: Extent)
    ensures AllDrafted(body, drafts) && Order(order, drafts) && maxLine == MaxLine(body) && Spans(extent, Slots(body))
  {
    hide EntryOf, Drafted, SetField, Slots, MaxLine, Spans, AllDrafted;
    drafts, order, maxLine, extent := map[], [], 0, Extent(0, 0, 1, 1);
    EmptyScan();
    for n := 0 to |body|
      invariant AllDrafted(body[..n], drafts) && Order(order, drafts)
      invariant maxLine == MaxLine(body[..n]) && Spans(extent, Slots(body[..n]))
    {
      PrefixStep(body, n);
      ghost var before := drafts;
      match EntryOf(body[n]) {
        case None =>
        case Some(entry) =>
          var slot := entry.key.slot;
          if slot !in drafts { drafts, order := drafts[slot := BLANK], order + [slot]; }
          SpansWiden(extent, Slots(body[..n]), slot);
          extent := extent.Widen(slot);
          drafts := drafts[slot := SetField(drafts[slot], entry.key.field, entry.value)];
          if entry.key.field.Line? && entry.key.field.index > maxLine { maxLine := entry.key.field.index; }
      }
      AllDraftedStep(body[..n], body[n], before, drafts);
      assert Slots(body[..n]) + {} == Slots(body[..n]);
    }
    assert body[..|body|] == body;
  }

  lemma EmptyScan()
    ensures AllDrafted([], map[]) && MaxLine([]) == 0 && Spans(Extent(0, 0, 1, 1), Slots([]))
  {}

  /** A draft's lines in index order. */
  method OrderedLines(body: seq<string>, slot: Slot, draft: Draft, maxLine: nat) returns (lines: seq<string>)
    requires Drafted(body, slot, draft)
    ensures lines == LinesBelow(body, slot, maxLine + 1)
  {
    hide Value, LineAt, NameIn, ColorIn;
    lines := [];
    for index := 0 to maxLine + 1
      invariant lines == LinesBelow(body, slot, index)
    {
      assert LineAt(body, slot, index) == if index in draft.lines then [draft.lines[index]] else [];
      if index in draft.lines { lines := lines + [draft.lines[index]]; }
    }
  }

  lemma EmptyStaysEmpty(s: Social, most: nat)
    requires IsEmpty(s)
    ensures IsEmpty(Clean(s, most))
  {
    hide Strip;
    StripTrimmed("");
  }

  /** The socials gathered so far normalise to what the section says of their slots. */
  ghost predicate Gathered(body: seq<string>, socials: seq<Social>, slots: seq<Slot>) {
    forall slot ::
      var s := Clean(SocialIn(body, slot), Most(body));
      (slot in BySlot(socials, Most(body)) <==> slot in slots && !IsEmpty(s)) &&
      (slot in BySlot(socials, Most(body)) ==> BySlot(socials, Most(body))[slot] == s)
  }

  lemma GatherStep(body: seq<string>, socials: seq<Social>, slots: seq<Slot>, slot: Slot)
    requires Gathered(body, socials, slots) && slot !in slots
    ensures var s := SocialIn(body, slot);
      Gathered(body, if IsEmpty(s) then socials else socials + [s], slots + [slot])
  {
    hide IsEmpty, MaxLine, NameIn, ColorIn, LinesBelow, Strip, StripAll, DropBlanks;
    var s := SocialIn(body, slot);
    if IsEmpty(s) { EmptyStaysEmpty(s, Most(body)); }
    assert (socials + [s])[..|socials|] == socials;
    assert Clean(s, Most(body)).slot == slot;
  }

  lemma GatheredAll(body: seq<string>, socials: seq<Social>, slots: seq<Slot>)
    requires Gathered(body, socials, slots) && forall slot :: slot in slots <==> slot in Slots(body)
    ensures BySlot(socials, Most(body)) == ReadSlots(body)
  {
    hide IsEmpty, MaxLine, SocialIn, Clean, Slots;
  }

  /** What a file's section is read as. */
  method ReadSocials(body: seq<string>) returns (grid: Grid)
    ensures grid.socials == Read(body) && grid.linesPerButton == Most(body)
    ensures forall slot | slot in Slots(body) :: grid.ContainsSlot(slot)
    ensures grid.pages > 10 ==>
      exists slot | slot in Slots(body) :: slot.0 == grid.pageOrigin + grid.pages - 1
    ensures grid.buttonsPerPage > 10 ==>
      exists slot | slot in Slots(body) :: slot.1 == grid.buttonOrigin + grid.buttonsPerPage - 1
    ensures grid.pages >= 10 && grid.buttonsPerPage >= 10
    ensures grid.pageOrigin == if exists slot | slot in Slots(body) :: slot.0 == 0 then 0 else 1
    ensures grid.buttonOrigin == if exists slot | slot in Slots(body) :: slot.1 == 0 then 0 else 1
  {
    hide Drafted, Slots, MaxLine, SocialIn, IsEmpty, BySlot, InOrder, LinesBelow, Clean;
    var drafts, order, maxLine, e := ScanDrafts(body);
    var socials: seq<Social> := [];
    assert Gathered(body, [], []) by { NothingGathered(body); }
    for n := 0 to |order|
      invariant Gathered(body, socials, order[..n])
    {
      var slot := order[n];
      var lines := OrderedLines(body, slot, drafts[slot], maxLine);
      var social := Social(slot, drafts[slot].name, drafts[slot].color, lines);
      assert social == SocialIn(body, slot) by { DraftedSocial(body, slot, drafts[slot]); }
      GatherStep(body, socials, order[..n], slot);
      if !IsEmpty(social) { socials := socials + [social]; }
      assert order[..n + 1] == order[..n] + [slot];
    }
    assert order[..|order|] == order;
    GatheredAll(body, socials, order);
    var most := if maxLine > MAX_LINES then maxLine else MAX_LINES;
    var sorted := NormalizeSocials(socials, most);
    var pages, buttons := e.maxPage - e.minPage + 1, e.maxButton - e.minButton + 1;
    grid := Grid(if pages > DEFAULT_PAGES then pages else DEFAULT_PAGES,
                 if buttons > DEFAULT_BUTTONS then buttons else DEFAULT_BUTTONS,
                 most, e.minPage, e.minButton, sorted);
  }

  lemma NothingGathered(body: seq<string>)
    ensures Gathered(body, [], [])
  {
    hide IsEmpty, SocialIn, Clean;
  }

  lemma DraftedSocial(body: seq<string>, slot: Slot, draft: Draft)
    requires Drafted(body, slot, draft)
    ensures Social(slot, draft.name, draft.color, LinesBelow(body, slot, MaxLine(body) + 1)) == SocialIn(body, slot)
  {
    hide NameIn, ColorIn, LineAt, LinesBelow, MaxLine;
  }

  // -- writing -------------------------------------------------------------------------------------------

  /** Whether the file pads with the sentinel, its highest line number, and its keys. */
  method ScanBody(body: seq<string>) returns (nulls: bool, maxLine: nat, present: set<string>)
    ensures nulls == UsesNull(body) && maxLine == MaxLine(body) && present == Present(body)
    ensures nulls <==> PadsWithNull(body)
    ensures forall key :: Lower(KeyText(key)) in present <==> Carries(body, key)
  {
    hide EntryOf;
    nulls, maxLine, present := false, 0, {};
    for n := 0 to |body|
      invariant nulls == UsesNull(body[..n]) && maxLine == MaxLine(body[..n]) && present == Present(body[..n])
    {
      PrefixStep(body, n);
      assert body[..n + 1][..n] == body[..n];
      match EntryOf(body[n]) {
        case None =>
        case Some(entry) =>
          present := present + {Lower(entry.raw)};
          if IsNull(entry.value) { nulls := true; }
          if entry.key.field.Line? && entry.key.field.index > maxLine { maxLine := entry.key.field.index; }
      }
    }
    assert body[..|body|] == body;
    UsesNullIs(body);
    forall key ensures Lower(KeyText(key)) in present <==> Carries(body, key) { PresentIs(body, key); }
  }

  /** The merge: every line replaced in place, dropped, blanked or kept. */
  method MergeBody(body: seq<string>, wanted: seq<Pair>, owned: set<Slot>, clear: bool, nulls: bool) returns (m: Merged)
    ensures m == Merge(body, wanted, owned, clear, nulls)
  {
    hide EntryOf, FindSpelling;
    var merged, desired := [], wanted;
    for n := 0 to |body|
      invariant Merged(merged, desired) == Merge(body[..n], wanted, owned, clear, nulls)
    {
      assert body[..n + 1][..n] == body[..n];
      match EntryOf(body[n]) {
        case None => merged := merged + [body[n]];
        case Some(entry) =>
          if entry.key.slot in owned {
            var i := FindSpelling(desired, Lower(entry.raw));
            if i < |desired| {
              merged := merged + [KeyLine(entry.raw, desired[i].1)];
              desired := Without(desired, i);
            }
          } else if clear {
            if nulls && entry.key.field == Name { merged := merged + [KeyLine(entry.raw, NULL)]; }
          } else {
            merged := merged + [body[n]];
          }
      }
    }
    assert body[..|body|] == body;
    m := Merged(merged, desired);
  }

  /** Popping the blank lines off the end, writing what is still wanted, and putting the
      blanks back. */
  method FinishBody(m: Merged) returns (lines: seq<string>)
    ensures lines == Finish(m)
  {
    hide IsBlank, KeyLine, KeyText;
    lines := m.lines;
    var blanks: seq<string> := [];
    while lines != [] && IsBlank(lines[|lines| - 1])
      invariant lines <= m.lines && blanks == Reverse(m.lines[|lines|..])
      invariant BlankTail(lines) == BlankTail(m.lines)
    {
      var last := lines[|lines| - 1];
      assert m.lines[|lines| - 1..] == [last] + m.lines[|lines|..];
      blanks := blanks + [last];
      lines := lines[..|lines| - 1];
    }
    for n := 0 to |m.left|
      invariant lines == m.lines[..BlankTail(m.lines)] + PairLines(m.left[..n])
    {
      assert m.left[..n + 1][..n] == m.left[..n];
      lines := lines + [PairLine(m.left[n])];
    }
    assert m.left[..|m.left|] == m.left;
    lines := lines + blanks;
  }

  /** The wanted pairs of all the socials, in order. */
  method WantedPairs(socials: seq<Social>, present: set<string>) returns (wanted: seq<Pair>)
    requires Coloured(socials)
    ensures wanted == Desired(socials, present)
  {
    hide SlotKeys;
    wanted := [];
    for n := 0 to |socials|
      invariant wanted == Desired(socials[..n], present)
    {
      assert socials[..n + 1][..n] == socials[..n];
      wanted := wanted + SlotKeys(socials[n], present);
    }
    assert socials[..|socials|] == socials;
  }

  /** Merging socials into a section's lines. */
  method WriteSocials(body: seq<string>, socials: seq<Social>, clear: bool) returns (lines: seq<string>)
    ensures lines == WriteBody(body, socials, clear)
  {
    hide Finish, Merge, Desired, UsesNull, Present, MaxLine, BySlot, InOrder;
    var nulls, maxLine, present := ScanBody(body);
    var cleaned := NormalizeSocials(socials, if maxLine > MAX_LINES then maxLine else MAX_LINES);
    CleanedIs(body, socials);
    var wanted := WantedPairs(cleaned, present);
    var merged := MergeBody(body, wanted, Owned(cleaned), clear, nulls);
    lines := FinishBody(merged);
  }
}
