/** Writing socials into the text of a file and reading them back from it. */
module SocialFiles {
  import opened Text
  import opened EqIni
  import opened FileText
  import opened SocialKeys
  import opened SocialValues
  import opened SocialLines
  import opened SocialWriter
  import opened SocialRoundTrip

  const SECTION := "Socials"

  function FileBody(text: string): seq<string> { SectionBody(SplitText(text), SECTION) }

  function ReadFile(text: string): seq<Social> { Read(FileBody(text)) }

  function WrittenLines(text: string, socials: seq<Social>, clear: bool): seq<string> {
    ReplaceSection(SplitText(text), SECTION, WriteBody(FileBody(text), socials, clear))
  }

  function WriteFile(text: string, socials: seq<Social>, clear: bool): string {
    JoinText(WrittenLines(text, socials, clear), DetectNewline(text))
  }

  // -- lines stay lines --------------------------------------------------------------------------

  /** What a social writes fits on one line. */
  predicate OneLiners(s: Social) { Single(s.name) && AllSingle(s.lines) }

  ghost predicate AllOneLiners(c: map<Slot, Social>) { forall slot | slot in c :: OneLiners(c[slot]) }

  lemma SliceSingle(s: string, from: nat, to: nat)
    requires Single(s) && from <= to <= |s|
    ensures Single(s[from..to])
  {}

  lemma StripSingle(s: string)
    requires Single(s)
    ensures Single(Strip(s))
  {
    hide Single, VisibleFrom, VisibleTo;
    var from, to := VisibleFrom(s, 0), VisibleTo(s, |s|);
    if from < to { SliceSingle(s, from, to); }
    EmptyIsSingle();
  }

  lemma EntrySingle(line: string)
    requires Single(line) && EntryOf(line).Some?
    ensures Single(EntryOf(line).value.raw)
  {
    hide Single, Strip, ParseKey, EqualsSign;
    var t := Strip(line);
    StripSingle(line);
    SliceSingle(t, 0, EqualsSign(t));
    assert t[0..EqualsSign(t)] == t[..EqualsSign(t)];
    StripSingle(t[..EqualsSign(t)]);
  }

  lemma KeyLineSingle(raw: string, value: string)
    requires Single(raw) && Single(value)
    ensures Single(KeyLine(raw, value))
  {}

  lemma DigitsSingle(s: string)
    requires AllDigits(s)
    ensures Single(s)
  {}

  lemma PlainSingle(a: string, b: string)
    requires Single(a) && Single(b)
    ensures Single(a + b)
  {}

  lemma WordsSingle()
    ensures Single("Page") && Single("Button") && Single("Name") && Single("Color") && Single("Line") && Single(NULL)
  {}

  lemma KeyTextSingle(key: Key)
    ensures Single(KeyText(key))
  {
    hide Single, Decimal, IsDigit;
    WordsSingle();
    var p, b, f := Decimal(key.slot.0), Decimal(key.slot.1), FieldText(key.field);
    DigitsSingle(p);
    DigitsSingle(b);
    if key.field.Line? {
      DigitsSingle(Decimal(key.field.index));
      PlainSingle("Line", Decimal(key.field.index));
    }
    PlainSingle(b, f);
    PlainSingle("Button", b + f);
    PlainSingle(p, "Button" + (b + f));
    PlainSingle("Page", p + ("Button" + (b + f)));
  }

  ghost predicate PairsSingle(pairs: seq<Pair>) { forall p | p in pairs :: Single(p.1) }

  lemma MergeLineSingle(line: string, m: Merged, owned: set<Slot>, clear: bool, nulls: bool)
    requires Single(line) && AllSingle(m.lines) && PairsSingle(m.left)
    ensures var r := MergeLine(line, m, owned, clear, nulls);
      AllSingle(r.lines) && PairsSingle(r.left)
  {
    hide Single, EntryOf, KeyLine, Lower, KeyText;
    if EntryOf(line).Some? {
      var entry := EntryOf(line).value;
      EntrySingle(line);
      WordsSingle();
      KeyLineSingle(entry.raw, NULL);
      var i := FindSpelling(m.left, Lower(entry.raw));
      if i < |m.left| {
        assert m.left[i] in m.left;
        KeyLineSingle(entry.raw, m.left[i].1);
      }
    }
  }

  lemma {:induction false} MergeSingle(body: seq<string>, wanted: seq<Pair>, owned: set<Slot>, clear: bool, nulls: bool)
    requires AllSingle(body) && PairsSingle(wanted)
    ensures var r := Merge(body, wanted, owned, clear, nulls);
      AllSingle(r.lines) && PairsSingle(r.left)
  {
    hide Single, MergeLine;
    if body != [] {
      var init := body[..|body| - 1];
      assert forall line | line in init :: line in body;
      MergeSingle(init, wanted, owned, clear, nulls);
      MergeLineSingle(body[|body| - 1], Merge(init, wanted, owned, clear, nulls), owned, clear, nulls);
    }
  }

  lemma {:induction false} PairLinesSingle(pairs: seq<Pair>)
    requires PairsSingle(pairs)
    ensures AllSingle(PairLines(pairs))
  {
    hide Single, KeyText, KeyLine;
    if pairs != [] {
      var init, p := pairs[..|pairs| - 1], pairs[|pairs| - 1];
      assert p in pairs && forall q | q in init :: q in pairs;
      PairLinesSingle(init);
      KeyTextSingle(p.0);
      KeyLineSingle(KeyText(p.0), p.1);
    }
  }

  lemma FinishSingle(m: Merged)
    requires AllSingle(m.lines) && PairsSingle(m.left)
    ensures AllSingle(Finish(m))
  {
    hide Single, PairLines, IsBlank;
    PairLinesSingle(m.left);
    var n := BlankTail(m.lines);
    assert forall i | 0 <= i < |m.lines| :: m.lines[i] in m.lines;
  }

  lemma {:induction false} DesiredSingle(socials: seq<Social>, present: set<string>)
    requires Coloured(socials) && forall s | s in socials :: OneLiners(s)
    ensures PairsSingle(Desired(socials, present))
  {
    hide Single, Decimal, Spelled;
    if socials != [] {
      var init, last := socials[..|socials| - 1], socials[|socials| - 1];
      assert last in socials && forall s | s in init :: s in socials;
      DesiredSingle(init, present);
      DigitsSingle(Decimal(last.color));
      LineKeysAre(last.slot, last.lines);
    }
  }

  lemma WriteBodySingle(body: seq<string>, socials: seq<Social>, clear: bool)
    requires AllSingle(body)
    requires AllOneLiners(Cleaned(body, socials))
    ensures AllSingle(WriteBody(body, socials, clear))
  {
    hide Merge, Finish, Desired, Present, UsesNull, Most, OneLiners, AllSingle, PairsSingle, BySlot, IsClean, InOrder;
    var c := Cleaned(body, socials);
    CleanedIs(body, socials);
    var cleaned := Normalize(socials, Most(body));
    InOrderMembers(c);
    var wanted := Desired(cleaned, Present(body));
    forall s | s in cleaned ensures OneLiners(s) { assert s.slot in c; }
    DesiredSingle(cleaned, Present(body));
    MergeSingle(body, wanted, Owned(cleaned), clear, UsesNull(body));
    FinishSingle(Merge(body, wanted, Owned(cleaned), clear, UsesNull(body)));
  }

  lemma ReplacedSingle(lines: seq<string>, name: string, body: seq<string>)
    requires AllSingle(lines) && AllSingle(body) && Single(Header(name))
    ensures AllSingle(ReplaceSection(lines, name, body)) && ReplaceSection(lines, name, body) != []
  {
    hide Single, Strip, IsHeader, OpensSection, SectionEnd;
    EmptyIsSingle();
  }

  lemma BodySingle(lines: seq<string>, name: string)
    requires AllSingle(lines)
    ensures AllSingle(SectionBody(lines, name))
  {
    hide Single, IsHeader, OpensSection, SectionEnd;
  }

  /** The file a write leaves holds exactly the lines it meant to write, so what the section
      says is what is read. */
  lemma FileHoldsWhatWasWritten(text: string, socials: seq<Social>, clear: bool)
    requires AllOneLiners(Cleaned(FileBody(text), socials))
    ensures SplitText(WriteFile(text, socials, clear)) == WrittenLines(text, socials, clear)
    ensures FileBody(WriteFile(text, socials, clear)) == WriteBody(FileBody(text), socials, clear)
  {
    hide Single, Cleaned, WriteBody, AllSingle, SectionBody, ReplaceSection, OneLiners, SplitText, JoinText;
    var lines := SplitText(text);
    SplitGivesSingles(text);
    BodySingle(lines, SECTION);
    SectionBodyHasNoHeaders(lines, SECTION);
    var body := FileBody(text);
    WriteBodySingle(body, socials, clear);
    HeaderSingle();
    ReplacedSingle(lines, SECTION, WriteBody(body, socials, clear));
    JoinedLinesReadBack(WrittenLines(text, socials, clear), DetectNewline(text));
    WriteSets(body, socials, clear, Key((0, 0), Name));
    PutGet(lines, SECTION, WriteBody(body, socials, clear));
  }

  lemma HeaderSingle()
    ensures Single(Header(SECTION))
  {}

  /** With the missing slots cleared, a file reads back as the socials written to it, exactly
      when no value is the sentinel and no cut exposed a blank last line. */
  lemma FilesReadBack(text: string, socials: seq<Social>)
    requires AllOneLiners(Cleaned(FileBody(text), socials))
    ensures var c := Cleaned(FileBody(text), socials);
      && ReadFile(WriteFile(text, socials, true)) == InOrder(RereadAll(c))
      && (ReadFile(WriteFile(text, socials, true)) == Normalize(socials, Most(FileBody(text))) <==> AllFaithful(c))
  {
    hide Cleaned, WriteBody, FileBody, WriteFile, Read, OneLiners, Normalize, InOrder, RereadAll, AllFaithful;
    var body := FileBody(text);
    FileHoldsWhatWasWritten(text, socials, true);
    SectionBodyOfFile(text);
    ClearingWriteReadsBack(body, socials);
    ExactlyFaithfulWritesReadBack(body, socials);
  }

  lemma SectionBodyOfFile(text: string)
    ensures NoHeaders(FileBody(text))
  {
    hide SectionBody, SplitText;
    SectionBodyHasNoHeaders(SplitText(text), SECTION);
  }

  /** Every other section of the file keeps its lines, but for the blank line that separates
      it from a section that had to be appended. */
  lemma OtherSectionsKept(text: string, socials: seq<Social>, clear: bool, other: string)
    requires AllOneLiners(Cleaned(FileBody(text), socials))
    requires Lower(Header(other)) != Lower(Header(SECTION))
    ensures SectionBody(SplitText(WriteFile(text, socials, clear)), other) ==
      SectionBody(SplitText(text), other) + Added(SplitText(text), SECTION, other)
  {
    hide Cleaned, WriteBody, FileBody, WriteFile, OneLiners, SectionBody, SplitText, Lower, ReplaceSection, Added;
    FileHoldsWhatWasWritten(text, socials, clear);
    SectionBodyOfFile(text);
    WriteSets(FileBody(text), socials, clear, Key((0, 0), Name));
    OthersKept(SplitText(text), SECTION, WriteBody(FileBody(text), socials, clear), other);
  }

  // -- pushing -----------------------------------------------------------------------------------------

  /** What a push writes: the socials are normalised at five lines before each file's own
      write normalises them again. */
  function PushFile(text: string, socials: seq<Social>, clear: bool): string {
    WriteFile(text, Normalize(socials, MAX_LINES), clear)
  }

  lemma {:induction false} BySlotCleans(socials: seq<Social>, most: nat, slot: Slot) returns (s: Social)
    requires slot in BySlot(socials, most)
    ensures s in socials && BySlot(socials, most)[slot] == Clean(s, most)
  {
    hide Clean, IsEmpty;
    var last := Clean(socials[|socials| - 1], most);
    if !IsEmpty(last) && last.slot == slot { s := socials[|socials| - 1]; }
    else { s := BySlotCleans(socials[..|socials| - 1], most, slot); }
  }

  /** Normalised twice, no social ends in a blank line. */
  lemma PushedEndVisibly(socials: seq<Social>, most: nat, slot: Slot)
    requires most >= MAX_LINES && slot in BySlot(Normalize(socials, MAX_LINES), most)
    ensures var lines := BySlot(Normalize(socials, MAX_LINES), most)[slot].lines;
      lines == [] || lines[|lines| - 1] != ""
  {
    hide Clean, IsEmpty, BySlot, InOrder, Trimmed;
    var s := BySlotCleans(Normalize(socials, MAX_LINES), most, slot);
    BySlotIsClean(socials, MAX_LINES);
    InOrderMembers(BySlot(socials, MAX_LINES));
    CleanAgain(s, most);
  }

  /** No value a social writes is the sentinel. */
  predicate NoSentinel(s: Social) { !IsNull(s.name) && forall i | 0 <= i < |s.lines| :: !IsNull(s.lines[i]) }

  ghost predicate NoSentinels(c: map<Slot, Social>) { forall slot | slot in c :: NoSentinel(c[slot]) }

  /** A clearing push reads back as what it wrote, exactly when no value is the sentinel. */
  lemma PushesReadBack(text: string, socials: seq<Social>)
    requires AllOneLiners(Cleaned(FileBody(text), Normalize(socials, MAX_LINES)))
    ensures var twice := Normalize(socials, MAX_LINES);
      ReadFile(PushFile(text, socials, true)) == Normalize(twice, Most(FileBody(text))) <==>
      NoSentinels(Cleaned(FileBody(text), twice))
  {
    hide BySlot, FileBody, WriteFile, ReadFile, OneLiners, Normalize, InOrder, IsNull, RereadAll, MaxLine;
    var twice := Normalize(socials, MAX_LINES);
    FilesReadBack(text, twice);
    forall slot | slot in Cleaned(FileBody(text), twice)
      ensures Faithful(Cleaned(FileBody(text), twice)[slot]) <==> NoSentinel(Cleaned(FileBody(text), twice)[slot])
    {
      PushedEndVisibly(socials, Most(FileBody(text)), slot);
    }
  }

  /** Every social the normalised list has fits the five lines a push writes, and comes back. */
  ghost predicate FitsAPush(m: map<Slot, Social>) {
    forall slot | slot in m :: Faithful(m[slot]) && |m[slot].lines| <= MAX_LINES
  }

  /** What the second normalising makes of what the first one kept. */
  function Pushed(s: Social): Social { s.(lines := DropBlanks(s.lines)) }

  function PushedAll(b: map<Slot, Social>): map<Slot, Social> { map slot | slot in b :: Pushed(b[slot]) }

  lemma OnlyBlanksDropped(s: Social)
    ensures IsEmpty(Pushed(s)) ==> IsEmpty(s)
  {
    var kept := DropBlanks(s.lines);
    StripTrimmed("");
    hide Strip, DropBlanks;
    if IsEmpty(Pushed(s)) {
      forall i | 0 <= i < |s.lines| ensures Strip(s.lines[i]) == "" {
        if i < |kept| { assert Strip(kept[i]) == "" && kept[i] == s.lines[i]; }
      }
    }
  }

  lemma PushedShows(s: Social, most: nat)
    requires IsClean(s, most)
    ensures !IsEmpty(Pushed(s)) && IsClean(Pushed(s), most)
  {
    hide IsEmpty, Trimmed;
    OnlyBlanksDropped(s);
  }

  /** A clean social through the second normalising. */
  lemma CleanPushes(s: Social, most: nat)
    requires IsClean(s, MAX_LINES) && most >= MAX_LINES
    ensures Clean(s, most) == Pushed(s) && !IsEmpty(Clean(s, most))
  {
    hide Clean, IsEmpty, DropBlanks, Trimmed;
    assert IsClean(s, most);
    CleanAgain(s, most);
    PushedShows(s, most);
  }

  /** The slots of a list that has one social a slot, each cleaned. */
  lemma {:induction false} BySlotOfClean(socials: seq<Social>, most: nat, slot: Slot)
    requires OneEach(socials) && most >= MAX_LINES && forall s | s in socials :: IsClean(s, MAX_LINES)
    ensures forall s | s in socials && s.slot == slot ::
      slot in BySlot(socials, most) && BySlot(socials, most)[slot] == Pushed(s)
    ensures slot in BySlot(socials, most) ==> exists s | s in socials :: s.slot == slot
  {
    hide Clean, IsEmpty, IsClean, Pushed;
    if socials != [] {
      var init, last := socials[..|socials| - 1], socials[|socials| - 1];
      assert last in socials && forall s :: s in socials <==> s in init || s == last;
      BySlotOfClean(init, most, slot);
      CleanPushes(last, most);
      assert Pushed(last).slot == last.slot by { PushedSlot(last); }
      assert forall s | s in init :: s.slot != last.slot;
    }
  }

  lemma PushedSlot(s: Social)
    ensures Pushed(s).slot == s.slot
  {}

  /** A push writes exactly what five lines keep, each without the blank lines it ends in. */
  lemma PushWrites(socials: seq<Social>, most: nat)
    requires most >= MAX_LINES
    ensures BySlot(Normalize(socials, MAX_LINES), most) == PushedAll(BySlot(socials, MAX_LINES))
  {
    hide BySlot, InOrder, IsClean, Pushed;
    var b, twice := BySlot(socials, MAX_LINES), Normalize(socials, MAX_LINES);
    BySlotIsClean(socials, MAX_LINES);
    InOrderMembers(b);
    InOrderAscends(b);
    AscendingIsOneEach(twice);
    forall slot
      ensures slot in BySlot(twice, most) <==> slot in b
      ensures slot in b ==> BySlot(twice, most)[slot] == Pushed(b[slot])
    {
      BySlotOfClean(twice, most, slot);
      if slot in b { assert b[slot] in twice && b[slot].slot == slot; }
    }
  }

  /** A slot kept at five lines is kept at more. */
  lemma {:induction false} MoreKeepsSlots(socials: seq<Social>, most: nat, slot: Slot)
    requires most >= MAX_LINES && slot in BySlot(socials, MAX_LINES)
    ensures slot in BySlot(socials, most)
  {
    hide Clean, IsEmpty;
    var last := socials[|socials| - 1];
    assert Clean(last, most).slot == Clean(last, MAX_LINES).slot == last.slot by { CleanSlot(last, most); }
    if IsEmpty(Clean(last, most)) { LessIsEmptier(last, MAX_LINES, most); }
    if last.slot != slot || IsEmpty(Clean(last, MAX_LINES)) { MoreKeepsSlots(socials[..|socials| - 1], most, slot); }
  }

  lemma CleanSlot(s: Social, most: nat)
    ensures Clean(s, most).slot == s.slot && Clean(s, MAX_LINES).slot == s.slot
  {}

  /** A social that fits five lines is the one kept at five lines. */
  lemma {:induction false} ShortIsKept(socials: seq<Social>, most: nat, slot: Slot)
    requires most >= MAX_LINES && slot in BySlot(socials, most) && |BySlot(socials, most)[slot].lines| <= MAX_LINES
    ensures slot in BySlot(socials, MAX_LINES) && BySlot(socials, MAX_LINES)[slot] == BySlot(socials, most)[slot]
  {
    hide Clean, IsEmpty;
    var last := socials[|socials| - 1];
    CleanSlot(last, most);
    if last.slot == slot && !IsEmpty(Clean(last, most)) {
      ShortCleansAlike(last, most);
    } else {
      if IsEmpty(Clean(last, most)) { LessIsEmptier(last, MAX_LINES, most); }
      ShortIsKept(socials[..|socials| - 1], most, slot);
    }
  }

  lemma ShortCleansAlike(s: Social, most: nat)
    requires most >= MAX_LINES && |Clean(s, most).lines| <= MAX_LINES
    ensures Clean(s, MAX_LINES) == Clean(s, most)
  {
    hide Strip, StripAll, DropBlanks;
  }

  /** What comes back holds no sentinel and ends in no blank line. */
  lemma RereadIsFaithful(s: Social)
    ensures Faithful(Reread(s))
  {
    hide Lower;
    EmptyIsNotNull();
    var plain := PlainAll(s.lines);
    assert forall i | 0 <= i < |plain| :: !IsNull(plain[i]);
  }

  lemma PushedFaithful(s: Social, most: nat)
    requires IsClean(s, most) && Faithful(s)
    ensures Reread(Pushed(s)) == s
  {
    hide IsEmpty, Trimmed, Lower;
    FaithfulRereads(s, most);
    assert DropBlanks(s.lines) == s.lines;
  }

  /** A clearing push reads back as the socials it was given, normalised for the file, exactly
      when each of them fits five lines, holds no sentinel and ends in no blank line. */
  lemma PushesReadBackWhole(text: string, socials: seq<Social>)
    requires AllOneLiners(Cleaned(FileBody(text), Normalize(socials, MAX_LINES)))
    ensures ReadFile(PushFile(text, socials, true)) == Normalize(socials, Most(FileBody(text))) <==>
      FitsAPush(BySlot(socials, Most(FileBody(text))))
  {
    hide BySlot, FileBody, WriteFile, ReadFile, OneLiners, InOrder, RereadAll, MaxLine, PushedAll, FitsAPush,
      AllFaithful;
    var most, twice := Most(FileBody(text)), Normalize(socials, MAX_LINES);
    var b, m := BySlot(socials, MAX_LINES), BySlot(socials, most);
    FilesReadBack(text, twice);
    PushWrites(socials, most);
    BySlotIsClean(socials, MAX_LINES);
    BySlotIsClean(socials, most);
    RereadsAreSlotted(PushedAll(b), b);
    InOrderInjective(RereadAll(PushedAll(b)), m);
    PushedAllIs(socials, most);
  }

  lemma RereadsAreSlotted(pushed: map<Slot, Social>, b: map<Slot, Social>)
    requires pushed == PushedAll(b) && Slotted(b)
    ensures Slotted(RereadAll(pushed))
  {}

  lemma PushedAllIs(socials: seq<Social>, most: nat)
    requires most >= MAX_LINES
    ensures RereadAll(PushedAll(BySlot(socials, MAX_LINES))) == BySlot(socials, most) <==>
      FitsAPush(BySlot(socials, most))
  {
    hide BySlot, Reread, Pushed, IsEmpty, IsClean, Faithful;
    var b, m := BySlot(socials, MAX_LINES), BySlot(socials, most);
    BySlotIsClean(socials, MAX_LINES);
    BySlotIsClean(socials, most);
    var read := RereadAll(PushedAll(b));
    if read == m {
      forall slot | slot in m ensures Faithful(m[slot]) && |m[slot].lines| <= MAX_LINES {
        assert slot in read && slot in b && m[slot] == Reread(Pushed(b[slot]));
        RereadIsFaithful(Pushed(b[slot]));
        RereadShrinks(b[slot], MAX_LINES);
      }
    }
    if FitsAPush(m) {
      forall slot
        ensures slot in m ==> slot in read && read[slot] == m[slot]
        ensures slot in read ==> slot in m
      {
        if slot in m {
          ShortIsKept(socials, most, slot);
          PushedFaithful(b[slot], MAX_LINES);
          assert !IsEmpty(m[slot]) by { RereadSlot(m[slot], most); }
        }
        if slot in b { MoreKeepsSlots(socials, most, slot); }
      }
      assert read == m;
    }
  }

  lemma RereadShrinks(s: Social, most: nat)
    requires IsClean(s, most)
    ensures |Reread(Pushed(s)).lines| <= most
  {
    hide Plain, IsEmpty, Trimmed;
  }
}
