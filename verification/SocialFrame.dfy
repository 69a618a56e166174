/** What a write leaves alone. */
module SocialFrame {
  import opened Options
  import opened Text
  import opened EqIni
  import opened SocialKeys
  import opened SocialValues
  import opened SocialLines
  import opened SocialWriter
  import opened SocialMerge
  import opened SocialRoundTrip

  // -- the slots that are not written -----------------------------------------------------------

  /** A key with a line number at the section's highest is there to be read. */
  lemma {:induction false} MaxLineIsSeen(body: seq<string>) returns (slot: Slot)
    ensures MaxLine(body) > 0 ==> Value(body, Key(slot, Line(MaxLine(body)))).Some?
  {
    hide EntryOf;
    slot := (0, 0);
    if body != [] {
      slot := MaxLineIsSeen(body[..|body| - 1]);
      var entry := EntryOf(body[|body| - 1]);
      if entry.Some? && entry.value.key.field == Line(MaxLine(body)) { slot := entry.value.key.slot; }
    }
  }

  lemma {:induction false} SeenHasValue(body: seq<string>, slot: Slot) returns (key: Key)
    requires slot in Slots(body)
    ensures key.slot == slot && Value(body, key).Some?
  {
    hide EntryOf;
    var entry := EntryOf(body[|body| - 1]);
    if entry.Some? && entry.value.key.slot == slot { key := entry.value.key; }
    else { key := SeenHasValue(body[..|body| - 1], slot); }
  }

  /** Two sections that agree on a slot's keys read the same social there. */
  lemma {:induction false} SameLines(a: seq<string>, b: seq<string>, slot: Slot, top: nat)
    requires forall key: Key | key.slot == slot :: Value(a, key) == Value(b, key)
    ensures LinesBelow(a, slot, top) == LinesBelow(b, slot, top)
  {
    hide Value;
    if top > 0 {
      SameLines(a, b, slot, top - 1);
      assert Key(slot, Line(top - 1)).slot == slot;
    }
  }

  /** Indices past the highest line number add nothing. */
  lemma {:induction false} LinesEnd(body: seq<string>, slot: Slot, top: nat)
    requires top > MaxLine(body)
    ensures LinesBelow(body, slot, top) == LinesBelow(body, slot, MaxLine(body) + 1)
    decreases top
  {
    hide Value, MaxLine;
    if top > MaxLine(body) + 1 {
      LinesEnd(body, slot, top - 1);
      assert LineAt(body, slot, top - 1) == [] by {
        if Value(body, Key(slot, Line(top - 1))).Some? { ValueIsSeen(body, Key(slot, Line(top - 1))); }
      }
    }
  }

  lemma SameSocial(a: seq<string>, b: seq<string>, slot: Slot)
    requires forall key: Key | key.slot == slot :: Value(a, key) == Value(b, key)
    ensures SocialIn(a, slot) == SocialIn(b, slot) && (slot in Slots(a) <==> slot in Slots(b))
  {
    hide Value, Slots, LinesBelow, MaxLine;
    var top := if MaxLine(a) > MaxLine(b) then MaxLine(a) + 1 else MaxLine(b) + 1;
    LinesEnd(a, slot, top);
    LinesEnd(b, slot, top);
    SameLines(a, b, slot, top);
    assert Key(slot, Name).slot == slot && Key(slot, Color).slot == slot;
    if slot in Slots(a) { var key := SeenHasValue(a, slot); ValueIsSeen(b, key); }
    if slot in Slots(b) { var key := SeenHasValue(b, slot); ValueIsSeen(a, key); }
  }

  /** A merging write leaves every key of every other slot as it was. */
  lemma OtherKeysKept(body: seq<string>, socials: seq<Social>, slot: Slot)
    requires NoHeaders(body) && slot !in Cleaned(body, socials)
    ensures forall key: Key | key.slot == slot :: Value(WriteBody(body, socials, false), key) == Value(body, key)
    ensures SocialIn(WriteBody(body, socials, false), slot) == SocialIn(body, slot)
    ensures slot in Slots(WriteBody(body, socials, false)) <==> slot in Slots(body)
  {
    hide Value, WriteBody, Cleaned, SocialIn, Slots, Present, UsesNull, Written;
    var w := WriteBody(body, socials, false);
    forall key: Key | key.slot == slot ensures Value(w, key) == Value(body, key) {
      WriteSets(body, socials, false, key);
    }
    SameSocial(w, body, slot);
  }

  // -- how many lines a file is read with after a write ---------------------------------------------

  /** The highest line number on a key of a slot outside `owned`. */
  function HighestOther(body: seq<string>, owned: set<Slot>): nat {
    if body == [] then 0
    else
      var most := HighestOther(body[..|body| - 1], owned);
      match EntryOf(body[|body| - 1])
      case None => most
      case Some(entry) =>
        if entry.key.slot !in owned && entry.key.field.Line? && entry.key.field.index > most
        then entry.key.field.index else most
  }

  lemma {:induction false} OtherIsSeen(body: seq<string>, owned: set<Slot>) returns (slot: Slot)
    ensures HighestOther(body, owned) > 0 ==>
      slot !in owned && Value(body, Key(slot, Line(HighestOther(body, owned)))).Some?
  {
    hide EntryOf;
    slot := (0, 0);
    if body != [] {
      slot := OtherIsSeen(body[..|body| - 1], owned);
      var entry := EntryOf(body[|body| - 1]);
      if entry.Some? && entry.value.key.slot !in owned && entry.value.key.field == Line(HighestOther(body, owned)) {
        slot := entry.value.key.slot;
      }
    }
  }

  lemma {:induction false} SeenIsNotHigher(body: seq<string>, owned: set<Slot>, key: Key)
    requires Value(body, key).Some? && key.slot !in owned && key.field.Line?
    ensures key.field.index <= HighestOther(body, owned)
  {
    hide EntryOf;
    var entry := EntryOf(body[|body| - 1]);
    if !(entry.Some? && entry.value.key == key) { SeenIsNotHigher(body[..|body| - 1], owned, key); }
  }

  /** The most lines any of the socials has. */
  function Longest(socials: seq<Social>): nat {
    if socials == [] then 0
    else
      var most, last := Longest(socials[..|socials| - 1]), socials[|socials| - 1];
      if |last.lines| > most then |last.lines| else most
  }

  lemma {:induction false} LongestIs(socials: seq<Social>)
    ensures forall s | s in socials :: |s.lines| <= Longest(socials)
    ensures Longest(socials) > 0 ==> exists s | s in socials :: |s.lines| == Longest(socials)
  {
    if socials != [] {
      var init, last := socials[..|socials| - 1], socials[|socials| - 1];
      LongestIs(init);
      assert forall s :: s in socials <==> s in init || s == last;
    }
  }

  /** What a write leaves as the highest line number: that of the slots it does not touch, or
      the length of the longest social it writes. */
  function HighestAfter(body: seq<string>, socials: seq<Social>): nat {
    var c := Cleaned(body, socials);
    var other, longest := HighestOther(body, c.Keys), Longest(Normalize(socials, Most(body)));
    if other > longest then other else longest
  }

  lemma NoHigherAfter(body: seq<string>, socials: seq<Social>)
    requires NoHeaders(body)
    ensures MaxLine(WriteBody(body, socials, false)) <= HighestAfter(body, socials)
  {
    hide Value, WriteBody, BySlot, InOrder, MaxLine, Present, UsesNull, HighestOther, Longest, IsClean, Most;
    var c, w := Cleaned(body, socials), WriteBody(body, socials, false);
    var slot := MaxLineIsSeen(w);
    if MaxLine(w) > 0 {
      var key := Key(slot, Line(MaxLine(w)));
      WriteSets(body, socials, false, key);
      if slot in c {
        BySlotIsClean(socials, Most(body));
        InOrderMembers(c);
        LongestIs(InOrder(c));
        assert c[slot] in InOrder(c);
      } else {
        SeenIsNotHigher(body, c.Keys, key);
      }
    }
  }

  lemma OthersStay(body: seq<string>, socials: seq<Social>)
    requires NoHeaders(body)
    ensures HighestOther(body, Cleaned(body, socials).Keys) <= MaxLine(WriteBody(body, socials, false))
  {
    hide Value, WriteBody, Cleaned, MaxLine, Present, UsesNull, HighestOther, Written;
    var c, w := Cleaned(body, socials), WriteBody(body, socials, false);
    var n := HighestOther(body, c.Keys);
    var slot := OtherIsSeen(body, c.Keys);
    if n > 0 {
      WriteSets(body, socials, false, Key(slot, Line(n)));
      ValueIsSeen(w, Key(slot, Line(n)));
    }
  }

  lemma LongestIsWritten(body: seq<string>, socials: seq<Social>)
    requires NoHeaders(body)
    ensures Longest(Normalize(socials, Most(body))) <= MaxLine(WriteBody(body, socials, false))
  {
    hide Value, WriteBody, BySlot, InOrder, MaxLine, Present, UsesNull, Longest, IsClean, Most;
    var c, w := Cleaned(body, socials), WriteBody(body, socials, false);
    var cleaned := InOrder(c);
    LongestIs(cleaned);
    BySlotIsClean(socials, Most(body));
    InOrderMembers(c);
    if Longest(cleaned) > 0 {
      var s :| s in cleaned && |s.lines| == Longest(cleaned);
      var key := Key(s.slot, Line(|s.lines|));
      WriteSets(body, socials, false, key);
      ValueIsSeen(w, key);
    }
  }

  /** The highest line number after a write, from what goes into it. */
  lemma MaxLineAfterWrite(body: seq<string>, socials: seq<Social>)
    requires NoHeaders(body)
    ensures MaxLine(WriteBody(body, socials, false)) == HighestAfter(body, socials)
  {
    hide WriteBody, BySlot, InOrder, MaxLine, HighestOther, Longest, Most;
    NoHigherAfter(body, socials);
    OthersStay(body, socials);
    LongestIsWritten(body, socials);
  }

  /** A merging write never raises the number of lines the file is read with. */
  lemma MostNeverGrows(body: seq<string>, socials: seq<Social>)
    requires NoHeaders(body)
    ensures Most(WriteBody(body, socials, false)) <= Most(body)
  {
    hide Value, WriteBody, Cleaned, MaxLine, Present, UsesNull, Trimmed, IsEmpty;
    var w := WriteBody(body, socials, false);
    var slot := MaxLineIsSeen(w);
    if MaxLine(w) > 0 {
      var key := Key(slot, Line(MaxLine(w)));
      WriteSets(body, socials, false, key);
      if slot !in Cleaned(body, socials) { ValueIsSeen(body, key); }
    }
  }

  /** The number of lines the file will be read with. */
  function MostAfter(body: seq<string>, socials: seq<Social>): nat {
    if HighestAfter(body, socials) > MAX_LINES then HighestAfter(body, socials) else MAX_LINES
  }

  // -- what another slot reads as ---------------------------------------------------------------------

  /** What a slot has to show before its lines are cut to the file's number. */
  function Shown(body: seq<string>, slot: Slot): seq<string> { DropBlanks(StripAll(SocialIn(body, slot).lines)) }

  /** The slot's lines fit the number the file will be read with, or that number stays. */
  predicate Fits(body: seq<string>, socials: seq<Social>, slot: Slot) {
    |Shown(body, slot)| <= MostAfter(body, socials) || MostAfter(body, socials) == Most(body)
  }

  lemma SlotsReadFromMost(body: seq<string>, socials: seq<Social>, slot: Slot)
    requires NoHeaders(body) && slot !in Cleaned(body, socials)
    ensures var w, cap := WriteBody(body, socials, false), MostAfter(body, socials);
      && Most(w) == cap <= Most(body) && SocialIn(w, slot) == SocialIn(body, slot)
      && (slot in Slots(w) <==> slot in Slots(body))
  {
    hide WriteBody, Cleaned, SocialIn, MaxLine, Slots, HighestAfter;
    MaxLineAfterWrite(body, socials);
    MostNeverGrows(body, socials);
    OtherKeysKept(body, socials, slot);
  }

  /** A slot that is not written reads as it did, exactly when it was not read as anything, or
      its lines fit the number the file will be read with, or that number stays: all of it
      known from the file and the socials before the write. */
  lemma OtherSlotsReadTheSame(body: seq<string>, socials: seq<Social>, slot: Slot)
    requires NoHeaders(body) && slot !in Cleaned(body, socials)
    ensures SameReading(ReadSlots(body), ReadSlots(WriteBody(body, socials, false)), slot) <==>
      slot !in ReadSlots(body) || Fits(body, socials, slot)
  {
    hide WriteBody, Cleaned, SocialIn, Slots, Strip, StripAll, DropBlanks, IsEmpty, Most, MostAfter;
    var s, cap := SocialIn(body, slot), MostAfter(body, socials);
    SlotsReadFromMost(body, socials, slot);
    CutsAlike(Shown(body, slot), cap, Most(body));
    if IsEmpty(Clean(s, Most(body))) { LessIsEmptier(s, cap, Most(body)); }
  }

  /** Without a Line0 a slot always fits. */
  lemma SlotsWithoutLineZeroReadTheSame(body: seq<string>, socials: seq<Social>, slot: Slot)
    requires NoHeaders(body) && slot !in Cleaned(body, socials) && Value(body, Key(slot, Line(0))) == None
    ensures SameReading(ReadSlots(body), ReadSlots(WriteBody(body, socials, false)), slot)
  {
    hide Value, WriteBody, Cleaned, SocialIn, Slots, Most, MaxLine, ReadSlots, MostAfter, Shown;
    var w := WriteBody(body, socials, false);
    OtherKeysKept(body, socials, slot);
    assert Key(slot, Line(0)).slot == slot;
    FitsWithoutLineZero(w, slot);
    SlotsReadFromMost(body, socials, slot);
    assert Shown(w, slot) == Shown(body, slot) by { SameShown(w, body, slot); }
    OtherSlotsReadTheSame(body, socials, slot);
  }

  lemma SameShown(a: seq<string>, b: seq<string>, slot: Slot)
    requires SocialIn(a, slot) == SocialIn(b, slot)
    ensures Shown(a, slot) == Shown(b, slot)
  {
    hide SocialIn, StripAll, DropBlanks;
  }

  ghost predicate SameReading(a: map<Slot, Social>, b: map<Slot, Social>, slot: Slot) {
    (slot in a <==> slot in b) && (slot in a ==> a[slot] == b[slot])
  }

  lemma {:induction false} FewLinesBelow(body: seq<string>, slot: Slot, top: nat)
    requires Value(body, Key(slot, Line(0))) == None
    ensures |LinesBelow(body, slot, top)| <= if top == 0 then 0 else top - 1
  {
    hide Value;
    if top > 0 { FewLinesBelow(body, slot, top - 1); }
  }

  lemma FitsWithoutLineZero(body: seq<string>, slot: Slot)
    requires Value(body, Key(slot, Line(0))) == None
    ensures |Shown(body, slot)| <= Most(body)
  {
    hide Value, LinesBelow, MaxLine, Strip;
    FewLinesBelow(body, slot, MaxLine(body) + 1);
  }

  // -- a Line0 that another slot's write cuts -----------------------------------------------------

  /** Lines 0 to n-1 of the first button, all the same. */
  function Run(n: nat): seq<Pair> { seq(n, i requires 0 <= i < n => (Key((1, 1), Line(i)), "a")) }

  function Same(n: nat): seq<string> { seq(n, i requires 0 <= i < n => "a") }

  /** Six lines numbered from 0, and a seventh number on another button. */
  function Six(): seq<string> { PairLines(Run(6) + [(Key((2, 1), Line(6)), "a")]) }

  lemma {:induction false} RunSays(n: nat, key: Key)
    ensures Lookup(Run(n), key) ==
      if key.slot == (1, 1) && key.field.Line? && key.field.index < n then Some("a") else None
  {
    if n > 0 {
      RunSays(n - 1, key);
      assert Run(n) == Run(n - 1) + [(Key((1, 1), Line(n - 1)), "a")];
      LookupOne(Run(n - 1), (Key((1, 1), Line(n - 1)), "a"), key);
    }
  }

  lemma SixSays(key: Key)
    ensures NoHeaders(Six())
    ensures Value(Six(), key) ==
      if (key.slot == (1, 1) && key.field.Line? && key.field.index < 6) || key == Key((2, 1), Line(6)) then Some("a")
      else None
  {
    hide Value, Lookup, Run, PairLines;
    RunSays(6, key);
    LookupOne(Run(6), (Key((2, 1), Line(6)), "a"), key);
    RunIsTrimmed(6);
    PairLinesSet(Run(6) + [(Key((2, 1), Line(6)), "a")], key);
  }

  lemma RunIsTrimmed(n: nat)
    ensures AllTrimmed(Run(n)) && Trimmed("a")
  {}

  lemma {:induction false} SixLines(top: nat)
    ensures LinesBelow(Six(), (1, 1), top) == Same(if top < 6 then top else 6)
  {
    hide Value, Six;
    if top > 0 {
      SixLines(top - 1);
      SixSays(Key((1, 1), Line(top - 1)));
      LetterIsPlain();
    }
  }

  lemma LetterIsPlain()
    ensures Plain("a") == "a" && Strip("a") == "a"
  {
    StripTrimmed("a");
    assert |Lower("a")| == 1 && |Lower(NULL)| == 6;
  }

  /** Numbering its lines from Line0, a slot can lose its last line to a write of another slot. */
  lemma LineZeroCanBeCut()
    ensures var w := WriteBody(Six(), [Social((2, 1), "n", DEFAULT_COLOR, [])], false);
      && Clean(SocialIn(Six(), (1, 1)), Most(Six())).lines == Same(6)
      && Clean(SocialIn(w, (1, 1)), Most(w)).lines == Same(5)
  {
    hide Value, WriteBody, MaxLine, Six, Clean, SocialIn, Most, Cleaned;
    var n := Social((2, 1), "n", DEFAULT_COLOR, []);
    var w := WriteBody(Six(), [n], false);
    SixSays(Key((1, 1), Name));
    OnlyTheOther(n);
    OtherKeysKept(Six(), [n], (1, 1));
    SixCaps(n);
    SixMost(w);
    SixCleans(Most(Six()));
    SixCleans(Most(w));
  }

  lemma SixMost(w: seq<string>)
    requires MaxLine(w) <= 5
    ensures Most(Six()) >= 6 && Most(w) == 5
  {
    hide Value, MaxLine, Six;
    SixSays(Key((2, 1), Line(6)));
    ValueIsSeen(Six(), Key((2, 1), Line(6)));
  }

  lemma SixCleans(most: nat)
    ensures Clean(SocialIn(Six(), (1, 1)), most).lines == Same(if most < 6 then most else 6)
  {
    hide Value, MaxLine, Strip, Six;
    SixSays(Key((2, 1), Line(6)));
    ValueIsSeen(Six(), Key((2, 1), Line(6)));
    SixLines(MaxLine(Six()) + 1);
    LetterIsPlain();
    assert StripAll(Same(6)) == Same(6);
    if most < 6 { assert Same(6)[..most] == Same(most); }
  }

  lemma OnlyTheOther(n: Social)
    requires n == Social((2, 1), "n", DEFAULT_COLOR, [])
    ensures Cleaned(Six(), [n]) == map[(2, 1) := n]
  {
    hide Strip, Six, Most;
    StripTrimmed("n");
    assert [n][..0] == [];
    assert BySlot([], Most(Six())) == map[];
    assert StripAll([]) == [];
    assert Clean(n, Most(Six())) == n;
  }

  lemma SixCaps(n: Social)
    requires n == Social((2, 1), "n", DEFAULT_COLOR, [])
    ensures MaxLine(WriteBody(Six(), [n], false)) <= 5
  {
    hide Value, WriteBody, MaxLine, Six, Present, UsesNull, BySlot, Trimmed, IsEmpty;
    var w := WriteBody(Six(), [n], false);
    var slot := MaxLineIsSeen(w);
    if MaxLine(w) > 0 {
      var key := Key(slot, Line(MaxLine(w)));
      SixSays(key);
      OnlyTheOther(n);
      WriteSets(Six(), [n], false, key);
    }
  }

  // -- the lines that are not ours --------------------------------------------------------------------

  /** A line the merge does not touch: no social's key, or another slot's that is not cleared. */
  predicate Foreign(line: string, owned: set<Slot>, clear: bool) {
    match EntryOf(line) case None => true case Some(entry) => !clear && entry.key.slot !in owned
  }

  function ForeignLines(lines: seq<string>, owned: set<Slot>, clear: bool): seq<string> {
    if lines == [] then []
    else
      var line := lines[|lines| - 1];
      ForeignLines(lines[..|lines| - 1], owned, clear) + if Foreign(line, owned, clear) then [line] else []
  }

  lemma {:induction false} ForeignConcat(a: seq<string>, b: seq<string>, owned: set<Slot>, clear: bool)
    ensures ForeignLines(a + b, owned, clear) == ForeignLines(a, owned, clear) + ForeignLines(b, owned, clear)
  {
    hide Foreign;
    if b == [] {
      assert a + b == a;
    } else {
      ForeignConcat(a, b[..|b| - 1], owned, clear);
      assert (a + b)[..|a + b| - 1] == a + b[..|b| - 1];
    }
  }

  lemma {:induction false} AllForeign(lines: seq<string>, owned: set<Slot>, clear: bool)
    requires forall line | line in lines :: Foreign(line, owned, clear)
    ensures ForeignLines(lines, owned, clear) == lines
  {
    hide Foreign;
    if lines != [] {
      AllForeign(lines[..|lines| - 1], owned, clear);
      assert lines == lines[..|lines| - 1] + [lines[|lines| - 1]];
    }
  }

  lemma {:induction false} NoneForeign(lines: seq<string>, owned: set<Slot>, clear: bool)
    requires forall line | line in lines :: !Foreign(line, owned, clear)
    ensures ForeignLines(lines, owned, clear) == []
  {
    hide Foreign;
    if lines != [] { NoneForeign(lines[..|lines| - 1], owned, clear); }
  }

  lemma MergeLineKeepsForeign(line: string, m: Merged, owned: set<Slot>, clear: bool, nulls: bool)
    requires Sound(m)
    ensures ForeignLines(MergeLine(line, m, owned, clear, nulls).lines, owned, clear) ==
      ForeignLines(m.lines, owned, clear) + ForeignLines([line], owned, clear)
  {
    hide EntryOf, ForeignLines, ParseKey, KeyText, Lower, KeyLine, Trimmed, Sound, IsKey;
    ForeignConcat(m.lines, [line], owned, clear);
    if Foreign(line, owned, clear) { AllForeign([line], owned, clear); } else { NoneForeign([line], owned, clear); }
    if !Foreign(line, owned, clear) {
      var entry := EntryOf(line).value;
      EntryIsKeyed(line);
      NullIsTrimmed();
      KeyLineEntry(entry.raw, entry.key, NULL);
      ForeignConcat(m.lines, [KeyLine(entry.raw, NULL)], owned, clear);
      if clear { NoneForeign([KeyLine(entry.raw, NULL)], owned, clear); }
      var i := FindSpelling(m.left, Lower(entry.raw));
      if i < |m.left| && entry.key.slot in owned {
        SoundTrims(m, i);
        KeyLineEntry(entry.raw, entry.key, m.left[i].1);
        ForeignConcat(m.lines, [KeyLine(entry.raw, m.left[i].1)], owned, clear);
        NoneForeign([KeyLine(entry.raw, m.left[i].1)], owned, clear);
      }
    }
  }

  lemma {:induction false} MergeKeepsForeign(body: seq<string>, wanted: seq<Pair>, owned: set<Slot>, clear: bool,
          nulls: bool)
    requires Distinct(wanted) && AllTrimmed(wanted) && NoHeaders(body)
    ensures ForeignLines(Merge(body, wanted, owned, clear, nulls).lines, owned, clear) ==
      ForeignLines(body, owned, clear)
  {
    hide EntryOf, MergeLine, AllTrimmed, Distinct, OpensSection, ForeignLines, Tracks;
    if body == [] {
      NoneForeign([], owned, clear);
    } else {
      var init, line := body[..|body| - 1], body[|body| - 1];
      MergeKeepsForeign(init, wanted, owned, clear, nulls);
      MergeTracks(init, wanted, owned, clear, nulls, Key((0, 0), Name));
      hide Sound;
      MergeLineKeepsForeign(line, Merge(init, wanted, owned, clear, nulls), owned, clear, nulls);
      ForeignConcat(init, [line], owned, clear);
      assert body == init + [line];
    }
  }

  lemma {:induction false} PairLinesOwned(pairs: seq<Pair>, owned: set<Slot>, clear: bool)
    requires AllTrimmed(pairs) && forall p | p in pairs :: p.0.slot in owned
    ensures ForeignLines(PairLines(pairs), owned, clear) == []
  {
    hide EntryOf, Trimmed, KeyText, KeyLine, ParseKey, IsKey, OpensSection;
    if pairs != [] {
      var init, p := pairs[..|pairs| - 1], pairs[|pairs| - 1];
      PairLinesOwned(init, owned, clear);
      assert p in pairs;
      KeyTextIsKey(p.0);
      ParseKeyText(p.0);
      KeyLineEntry(KeyText(p.0), p.0, p.1);
      ForeignConcat(PairLines(init), [PairLine(p)], owned, clear);
      NoneForeign([PairLine(p)], owned, clear);
    }
  }

  lemma BlanksAreForeign(lines: seq<string>, owned: set<Slot>, clear: bool)
    requires forall i | 0 <= i < |lines| :: IsBlank(lines[i])
    ensures ForeignLines(lines, owned, clear) == lines
  {
    hide EntryOf, Strip, ForeignLines;
    forall line | line in lines ensures Foreign(line, owned, clear) { BlankHasNoEntry(line); }
    AllForeign(lines, owned, clear);
  }

  lemma {:induction false} LeftIsWanted(body: seq<string>, wanted: seq<Pair>, owned: set<Slot>, clear: bool,
          nulls: bool)
    ensures forall p | p in Merge(body, wanted, owned, clear, nulls).left :: p in wanted
  {
    hide EntryOf, FindSpelling, KeyLine;
    if body != [] { LeftIsWanted(body[..|body| - 1], wanted, owned, clear, nulls); }
  }

  /** A write keeps every line that is neither a written slot's key nor cleared, character for
      character and in order, but for a stretch of blank lines at the end that it reverses. */
  lemma ForeignLinesKept(body: seq<string>, socials: seq<Social>, clear: bool)
    returns (kept: seq<string>, blanks: seq<string>)
    requires NoHeaders(body)
    ensures var owned := Cleaned(body, socials).Keys;
      && ForeignLines(body, owned, clear) == kept + blanks
      && ForeignLines(WriteBody(body, socials, clear), owned, clear) == kept + Reverse(blanks)
      && (forall i | 0 <= i < |blanks| :: IsBlank(blanks[i]))
  {
    hide EntryOf, Merge, Desired, Present, UsesNull, OpensSection, Before, IsClean, Most, ForeignLines, IsBlank,
      Trimmed, Distinct, Lookup, PairLines, Tracks;
    var c := Cleaned(body, socials);
    CleanedIs(body, socials);
    var cleaned := Normalize(socials, Most(body));
    InOrderMembers(c);
    InOrderAscends(c);
    AscendingIsOneEach(cleaned);
    var key := Key((0, 0), Name);
    DesiredSays(cleaned, Present(body), key);
    DesiredTrimmed(cleaned, Present(body), Most(body));
    var wanted := Desired(cleaned, Present(body));
    var m := Merge(body, wanted, c.Keys, clear, UsesNull(body));
    MergeTracks(body, wanted, c.Keys, clear, UsesNull(body), key);
    MergeKeepsForeign(body, wanted, c.Keys, clear, UsesNull(body));
    LeftIsWanted(body, wanted, c.Keys, clear, UsesNull(body));
    kept, blanks := FinishKeepsForeign(m, c.Keys, clear);
  }

  lemma ForeignSkip(a: seq<string>, b: seq<string>, c: seq<string>, owned: set<Slot>, clear: bool)
    requires ForeignLines(b, owned, clear) == []
    ensures ForeignLines(a + b + c, owned, clear) == ForeignLines(a, owned, clear) + ForeignLines(c, owned, clear)
  {
    hide Foreign, ForeignLines;
    ForeignConcat(a, b, owned, clear);
    ForeignConcat(a + b, c, owned, clear);
  }

  lemma FinishKeepsForeign(m: Merged, owned: set<Slot>, clear: bool) returns (kept: seq<string>, blanks: seq<string>)
    requires Sound(m) && forall p | p in m.left :: p.0.slot in owned
    ensures ForeignLines(m.lines, owned, clear) == kept + blanks
    ensures ForeignLines(Finish(m), owned, clear) == kept + Reverse(blanks)
    ensures forall i | 0 <= i < |blanks| :: IsBlank(blanks[i])
  {
    hide Foreign, OpensSection, ForeignLines, IsBlank, Trimmed, Distinct, PairLines;
    var n := BlankTail(m.lines);
    var head, added := m.lines[..n], PairLines(m.left);
    blanks := m.lines[n..];
    kept := ForeignLines(head, owned, clear);
    assert m.lines == head + blanks;
    assert Finish(m) == head + added + Reverse(blanks);
    hide Finish;
    PairLinesOwned(m.left, owned, clear);
    BlanksAreForeign(blanks, owned, clear);
    BlanksAreForeign(Reverse(blanks), owned, clear);
    hide Sound, BlankTail, Reverse;
    ForeignConcat(head, blanks, owned, clear);
    ForeignSkip(head, added, Reverse(blanks), owned, clear);
  }
}
