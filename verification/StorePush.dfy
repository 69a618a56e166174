/** The mirror after a save: push the socials to the file, mark them, read the file back. */
module StorePush {
  import opened Options
  import opened Text
  import opened FileText
  import opened SocialKeys
  import opened SocialValues
  import opened SocialLines
  import opened SocialWriter
  import opened SocialRoundTrip
  import opened SocialFiles
  import opened StoreValues
  import opened StoreRuns

  /** The records after a push of the socials is marked and the file it left is read. */
  ghost function PushedAndRead(records: seq<Record>, text: string, socials: seq<Social>, mark: Mark, clear: bool,
          t: int, now: int): seq<Record>
  {
    Sync(MarkWritten(records, socials, mark, t), ReadFile(PushFile(text, socials, clear)), now)
  }

  // -- what the file gives back -------------------------------------------------------------------

  lemma ReadFileAt(text: string, slot: Slot)
    ensures OneEach(ReadFile(text))
    ensures var m := ReadSlots(FileBody(text));
      SocialAt(ReadFile(text), slot) == if slot in m then Some(m[slot]) else None
  {
    hide FileBody, InOrder, SocialAt, IsEmpty, Slots;
    var m := ReadSlots(FileBody(text));
    assert Slotted(m);
    InOrderAt(m, slot);
  }

  /** A pushed slot comes back as what five lines keep of its social, less the blank lines it
      ends in and the sentinels; and not at all when that leaves nothing. */
  lemma PushedSlotComesBack(text: string, socials: seq<Social>, clear: bool, slot: Slot)
    requires AllOneLiners(Cleaned(FileBody(text), Normalize(socials, MAX_LINES)))
    requires slot in BySlot(socials, MAX_LINES)
    ensures var s := Reread(Pushed(BySlot(socials, MAX_LINES)[slot]));
      SocialAt(ReadFile(PushFile(text, socials, clear)), slot) == if IsEmpty(s) then None else Some(s)
  {
    hide FileBody, WriteFile, WriteBody, BySlot, AllOneLiners, Normalize, Pushed, Reread, IsEmpty, SocialAt, ReadFile,
      ReadSlots, MaxLine;
    var twice := Normalize(socials, MAX_LINES);
    FileHoldsWhatWasWritten(text, twice, clear);
    SectionBodyOfFile(text);
    PushWrites(socials, Most(FileBody(text)));
    OwnedSlotsReadBack(FileBody(text), twice, clear, slot);
    ReadFileAt(PushFile(text, socials, clear), slot);
  }

  /** After a clearing push no other slot comes back. */
  lemma OnlyPushedComeBack(text: string, socials: seq<Social>, slot: Slot)
    requires AllOneLiners(Cleaned(FileBody(text), Normalize(socials, MAX_LINES)))
    requires slot !in BySlot(socials, MAX_LINES)
    ensures SocialAt(ReadFile(PushFile(text, socials, true)), slot) == None
  {
    hide FileBody, WriteFile, WriteBody, BySlot, AllOneLiners, Normalize, SocialAt, ReadFile, ReadSlots, MaxLine;
    var twice := Normalize(socials, MAX_LINES);
    FileHoldsWhatWasWritten(text, twice, true);
    SectionBodyOfFile(text);
    PushWrites(socials, Most(FileBody(text)));
    ClearedSlotIsEmpty(FileBody(text), twice, slot);
    ReadFileAt(PushFile(text, socials, true), slot);
  }

  // -- whose it is then ---------------------------------------------------------------------------

  lemma DigestOfClean(s: Social, most: nat)
    requires IsClean(s, most)
    ensures Digest(s) == Payload(s.name, s.color, s.lines)
  {
    hide Strip, Trimmed, IsEmpty;
    StripTrimmed(s.name);
    forall i | 0 <= i < |s.lines| ensures Strip(s.lines[i]) == s.lines[i] { StripTrimmed(s.lines[i]); }
    assert StripAll(s.lines) == s.lines;
  }

  lemma DigestOfRead(s: Social, most: nat)
    requires IsClean(s, most)
    ensures var r := Reread(s); Digest(r) == Payload(r.name, r.color, r.lines)
  {
    hide Strip, Trimmed, IsEmpty, IsNull;
    var r := Reread(s);
    PlainTrimmed(s.name);
    forall i | 0 <= i < |r.lines| ensures Strip(r.lines[i]) == r.lines[i] {
      PlainTrimmed(s.lines[i]);
      assert r.lines[i] == PlainAll(s.lines)[i];
    }
    assert StripAll(r.lines) == r.lines;
  }

  /** What comes back is what was marked exactly when the social holds no sentinel and does not
      end in a blank line. */
  lemma ComesBackAsMarked(s: Social)
    requires IsClean(s, MAX_LINES)
    ensures Digest(Reread(Pushed(s))) == Digest(s) <==> Faithful(s)
  {
    hide IsClean, Faithful, Reread, Digest, IsEmpty;
    PushedShows(s, MAX_LINES);
    DigestOfClean(s, MAX_LINES);
    DigestOfRead(Pushed(s), MAX_LINES);
    var r := Reread(Pushed(s));
    assert r.slot == s.slot by { RereadSlot(Pushed(s), MAX_LINES); }
    if Faithful(s) { PushedFaithful(s, MAX_LINES); }
    if Digest(r) == Digest(s) {
      assert r == s;
      RereadIsFaithful(Pushed(s));
    }
  }

  /** The social as marked comes back in full, or has nothing left to come back. */
  predicate OriginStays(s: Social) { Faithful(s) || IsEmpty(Reread(Pushed(s))) }

  /** After a save, marked and read back, a slot written keeps its origin exactly when the
      origin was the game's anyway, or the five lines kept hold no sentinel and do not end in
      a blank, or come back as nothing at all: whether or not other slots were cleared. */
  lemma PushedSlotKeepsItsOrigin(records: seq<Record>, text: string, socials: seq<Social>, mark: Mark, clear: bool,
          t: int, now: int, slot: Slot)
    requires Sorted(records) && AllOneLiners(Cleaned(FileBody(text), Normalize(socials, MAX_LINES)))
    requires slot in BySlot(socials, MAX_LINES)
    ensures var marked := MarkWritten(records, socials, mark, t);
      var read := PushedAndRead(records, text, socials, mark, clear, t, now);
      OriginAt(read, slot) == OriginAt(marked, slot) <==>
      OriginAt(marked, slot) == Game || OriginStays(BySlot(socials, MAX_LINES)[slot])
  {
    hide Sorted, Digest, BySlot, At, SocialAt, Sync, MarkWritten, Normalize, OneEach, FileBody, PushFile, ReadFile,
      Faithful, Pushed, Reread, IsEmpty, AllOneLiners, IsClean;
    var s := BySlot(socials, MAX_LINES)[slot];
    var marked := MarkWritten(records, socials, mark, t);
    SortedIsUnique(records);
    NormalizedAt(socials, MAX_LINES, slot);
    MarkAt(records, socials, mark, t, slot);
    SortedIsUnique(marked);
    ReadFileAt(PushFile(text, socials, clear), slot);
    PushedSlotComesBack(text, socials, clear, slot);
    SyncAt(marked, ReadFile(PushFile(text, socials, clear)), now, slot);
    BySlotIsClean(socials, MAX_LINES);
    ComesBackAsMarked(s);
  }

  /** After a save that clears the other slots, marked and read back, the same of every slot:
      one that was not written keeps its origin. */
  lemma ClearingPushKeepsOrigins(records: seq<Record>, text: string, socials: seq<Social>, mark: Mark,
          t: int, now: int, slot: Slot)
    requires Sorted(records) && AllOneLiners(Cleaned(FileBody(text), Normalize(socials, MAX_LINES)))
    ensures var marked, b := MarkWritten(records, socials, mark, t), BySlot(socials, MAX_LINES);
      var read := PushedAndRead(records, text, socials, mark, true, t, now);
      OriginAt(read, slot) == OriginAt(marked, slot) <==>
      slot !in b || OriginAt(marked, slot) == Game || OriginStays(b[slot])
  {
    hide Sorted, BySlot, At, SocialAt, Sync, MarkWritten, Normalize, OneEach, FileBody, PushFile, ReadFile,
      OriginStays, AllOneLiners;
    if slot in BySlot(socials, MAX_LINES) {
      PushedSlotKeepsItsOrigin(records, text, socials, mark, true, t, now, slot);
    } else {
      var marked := MarkWritten(records, socials, mark, t);
      SortedIsUnique(records);
      MarkAt(records, socials, mark, t, slot);
      SortedIsUnique(marked);
      ReadFileAt(PushFile(text, socials, true), slot);
      OnlyPushedComeBack(text, socials, slot);
      SyncAt(marked, ReadFile(PushFile(text, socials, true)), now, slot);
    }
  }

  // -- two socials that lose it, and one that does not ---------------------------------------------------

  /** A social on the first button. */
  function Button(name: string, lines: seq<string>): Social { Social((1, 1), name, DEFAULT_COLOR, lines) }

  const OURS := Mark(Local, "", map[], map[])

  /** Whose the first button is after it alone was saved as ours, with nothing on record. */
  ghost function OriginAfterSave(text: string, s: Social): Origin {
    OriginAt(PushedAndRead([], text, [s], OURS, true, 0, 1), (1, 1))
  }

  /** What is left of ours after a save depends only on what five lines keep. */
  lemma SavedButton(text: string, s: Social, kept: Social)
    requires s.slot == (1, 1) && kept == Clean(s, MAX_LINES) && !IsEmpty(kept)
    requires OneLiners(Pushed(kept))
    ensures OriginAfterSave(text, s) == if OriginStays(kept) then Local else Game
  {
    hide Digest, At, SocialAt, Sync, MarkWritten, Normalize, OneEach, FileBody, PushFile, ReadFile,
      OriginStays, IsEmpty, OneLiners, Pushed, Clean, MaxLine;
    OnlyButton(s, kept);
    PushWrites([s], Most(FileBody(text)));
    NothingKnown((1, 1));
    MarkedButton(s, kept);
    hide BySlot;
    ClearingPushKeepsOrigins([], text, [s], OURS, 0, 1, (1, 1));
    OriginIsOursOrTheGames(text, s, kept);
  }

  lemma OnlyButton(s: Social, kept: Social)
    requires s.slot == (1, 1) && kept == Clean(s, MAX_LINES) && !IsEmpty(kept)
    ensures BySlot([s], MAX_LINES) == map[(1, 1) := kept]
  {
    hide Clean, IsEmpty;
    CleanSlot(s, MAX_LINES);
    assert [s][..0] == [];
    assert BySlot([], MAX_LINES) == map[];
  }

  lemma MarkedButton(s: Social, kept: Social)
    requires BySlot([s], MAX_LINES) == map[(1, 1) := kept]
    ensures Sorted([]) && OriginAt(MarkWritten([], [s], OURS, 0), (1, 1)) == Local
  {
    hide Digest, At, SocialAt, MarkWritten, Normalize, BySlot;
    NothingKnown((1, 1));
    SortedIsUnique([]);
    NormalizedAt([s], MAX_LINES, (1, 1));
    MarkAt([], [s], OURS, 0, (1, 1));
  }

  lemma OriginIsOursOrTheGames(text: string, s: Social, kept: Social)
    requires BySlot([s], MAX_LINES) == map[(1, 1) := kept]
    ensures OriginAfterSave(text, s) == Local || OriginAfterSave(text, s) == Game
  {
    hide Digest, At, SocialAt, MarkWritten, Normalize, BySlot, Sync, PushFile, ReadFile, Sorted;
    MarkedButton(s, kept);
    var marked := MarkWritten([], [s], OURS, 0);
    NormalizedAt([s], MAX_LINES, (1, 1));
    SortedIsUnique([]);
    MarkAt([], [s], OURS, 0, (1, 1));
    SortedIsUnique(marked);
    ReadFileAt(PushFile(text, [s], true), (1, 1));
    SyncAt(marked, ReadFile(PushFile(text, [s], true)), 1, (1, 1));
  }

  predicate IsWord(w: string) { w == "" || w == "a" || w == "n" || w == NULL }

  ghost predicate InWords(s: Social) {
    s.color == DEFAULT_COLOR && IsWord(s.name) && forall i | 0 <= i < |s.lines| :: IsWord(s.lines[i])
  }

  lemma WordIs(w: string)
    requires IsWord(w)
    ensures Strip(w) == w && Single(w) && Plain(w) == (if w == NULL then "" else w) && (IsNull(w) <==> w == NULL)
  {
    hide Strip;
    StripTrimmed(w);
    assert |Lower(w)| == |w| && |Lower(NULL)| == |NULL|;
  }

  /** Words are as clean as they come: only blank lines at the end and lines past five go. */
  lemma WordsClean(s: Social)
    requires InWords(s)
    ensures Clean(s, MAX_LINES) == s.(lines := Cut(DropBlanks(s.lines), MAX_LINES))
    ensures IsEmpty(s) <==> s.name == "" && forall i | 0 <= i < |s.lines| :: s.lines[i] == ""
    ensures OneLiners(Pushed(s))
  {
    hide Strip, DropBlanks, Cut, Single, IsNull, Plain, IsWord;
    WordIs(s.name);
    forall i | 0 <= i < |s.lines| ensures Strip(s.lines[i]) == s.lines[i] && Single(s.lines[i]) { WordIs(s.lines[i]); }
    assert StripAll(s.lines) == s.lines;
  }

  lemma WordsReread(s: Social)
    requires InWords(s) && NULL !in s.lines
    ensures PlainAll(s.lines) == s.lines
    ensures Faithful(s) <==> s.name != NULL && (s.lines == [] || s.lines[|s.lines| - 1] != "")
  {
    hide IsNull, Plain, IsWord;
    WordIs(s.name);
    forall i | 0 <= i < |s.lines| ensures Plain(s.lines[i]) == s.lines[i] && !IsNull(s.lines[i]) {
      WordIs(s.lines[i]);
      assert s.lines[i] in s.lines;
    }
  }

  /** A name that spells the sentinel comes back as none, and the slot is taken for the game's. */
  lemma SentinelLosesTheOrigin(text: string)
    ensures OriginAfterSave(text, Button(NULL, ["a"])) == Game
  {
    hide OriginAfterSave, IsEmpty, Clean, Faithful;
    var s, read := Button(NULL, ["a"]), Button("", ["a"]);
    WordsClean(s);
    WordsClean(read);
    WordsReread(s);
    WordIs(NULL);
    hide Plain;
    assert Pushed(s) == s && Reread(s) == read;
    assert s.lines[0] != "" && read.lines[0] != "";
    SavedButton(text, s, s);
  }

  /** A cut that leaves a blank fifth line is marked with it and read back without. */
  lemma BlankFifthLineLosesTheOrigin(text: string)
    ensures OriginAfterSave(text, Button("n", ["a", "", "", "", "", "a"])) == Game
  {
    hide OriginAfterSave, IsEmpty, Clean, Faithful, Plain;
    var s := Button("n", ["a", "", "", "", "", "a"]);
    var kept, read := Button("n", ["a", "", "", "", ""]), Button("n", ["a"]);
    WordsClean(s);
    WordsClean(kept);
    WordsClean(read);
    WordsReread(kept);
    WordsReread(read);
    WordIs("n");
    assert s.lines[..5] == kept.lines;
    FourBlanks();
    assert Pushed(kept) == read && Reread(kept.(lines := ["a"])) == read;
    SavedButton(text, s, kept);
  }

  lemma FourBlanks()
    ensures DropBlanks(["a", "", "", "", ""]) == ["a"]
  {
    assert ["a", "", "", "", ""][..4] == ["a", "", "", ""] && ["a", "", "", ""][..3] == ["a", "", ""];
    assert ["a", "", ""][..2] == ["a", ""] && ["a", ""][..1] == ["a"];
    assert DropBlanks(["a", "", ""]) == ["a"];
  }

  /** A sixth line alone does not: the push cuts it before it is written, as the mark does. */
  lemma SixthLineKeepsTheOrigin(text: string)
    ensures OriginAfterSave(text, Button("n", ["a", "a", "a", "a", "a", "a"])) == Local
  {
    hide OriginAfterSave, IsEmpty, Clean, Faithful, Plain, Reread;
    var s, kept := Button("n", ["a", "a", "a", "a", "a", "a"]), Button("n", ["a", "a", "a", "a", "a"]);
    WordsClean(s);
    WordsClean(kept);
    WordsReread(kept);
    assert s.lines[..5] == kept.lines;
    SavedButton(text, s, kept);
  }
}
