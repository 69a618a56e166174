/** What a section is read as, line by line and slot by slot. */
module SocialReading {
  import opened Options
  import opened Text
  import opened SocialKeys
  import opened SocialValues
  import opened SocialLines

  // -- the value of a key ----------------------------------------------------------------------

  /** Line `i` sets the key. */
  predicate SetsAt(body: seq<string>, i: int, key: Key) {
    0 <= i < |body| && EntryOf(body[i]).Some? && EntryOf(body[i]).value.key == key
  }

  /** Line `i` sets the key to the value, and no line after it sets the key. */
  ghost predicate LastAt(body: seq<string>, i: int, key: Key, value: string) {
    SetsAt(body, i, key) && EntryOf(body[i]).value.value == value && forall j | i < j :: !SetsAt(body, j, key)
  }

  ghost predicate LastSets(body: seq<string>, key: Key, value: string) {
    exists i :: LastAt(body, i, key, value)
  }

  ghost predicate Sets(body: seq<string>, key: Key) { exists i :: SetsAt(body, i, key) }

  /** A key that is set more than once has the value of its last line. */
  lemma {:induction false} LastLineWins(body: seq<string>, key: Key, value: string)
    ensures Value(body, key) == Some(value) <==> LastSets(body, key, value)
    ensures Value(body, key).Some? <==> Sets(body, key)
  {
    hide EntryOf;
    if body != [] {
      var n := |body| - 1;
      var init := body[..n];
      LastLineWins(init, key, value);
      assert forall i | 0 <= i < n :: init[i] == body[i];
      assert forall i | i < n :: SetsAt(body, i, key) <==> SetsAt(init, i, key);
      if SetsAt(body, n, key) {
        assert LastAt(body, n, key, EntryOf(body[n]).value.value);
        assert forall i :: LastAt(body, i, key, value) ==> i >= n;
      } else {
        forall i ensures LastAt(body, i, key, value) <==> LastAt(init, i, key, value) {}
      }
    }
  }

  // -- a slot's social --------------------------------------------------------------------------

  /** A value as it is shown: the sentinel, in any case, as nothing. */
  function Shown(value: string): string { if Lower(value) == "*null*" then "" else value }

  /** `at` is the numbers of the slot's lines below `top`, in order. */
  ghost predicate LineNumbers(body: seq<string>, slot: Slot, at: seq<nat>, top: nat) {
    && (forall k, m | 0 <= k < m < |at| :: at[k] < at[m])
    && forall n: nat :: n in at <==> n < top && Sets(body, Key(slot, Line(n)))
  }

  /** Every line shown has the value last set under its number. */
  ghost predicate LinesShown(body: seq<string>, slot: Slot, at: seq<nat>, lines: seq<string>) {
    |lines| == |at| && forall k | 0 <= k < |at| :: LineShown(body, slot, at[k], lines[k])
  }

  ghost predicate LineShown(body: seq<string>, slot: Slot, n: nat, line: string) {
    exists value :: LastSets(body, Key(slot, Line(n)), value) && line == Shown(value)
  }

  lemma ShownIs(value: string)
    ensures Shown(value) == Plain(value)
  {
    assert Lower(NULL) == "*null*";
  }

  lemma {:induction false} LinesAre(body: seq<string>, slot: Slot, top: nat) returns (at: seq<nat>)
    ensures LineNumbers(body, slot, at, top) && LinesShown(body, slot, at, LinesBelow(body, slot, top))
  {
    hide Value, LastSets, Sets, LastAt, Shown, Plain, LineShown;
    if top == 0 {
      at := [];
    } else {
      var before := LinesAre(body, slot, top - 1);
      var value := Value(body, Key(slot, Line(top - 1)));
      if value.Some? {
        at := before + [top - 1];
        OneLineShown(body, slot, top - 1);
        assert forall n: nat :: n in at <==> n in before || n == top - 1;
        assert forall k | 0 <= k < |before| :: before[k] in before;
      } else {
        at := before;
        LastLineWins(body, Key(slot, Line(top - 1)), "");
      }
    }
  }

  lemma OneLineShown(body: seq<string>, slot: Slot, n: nat)
    requires Value(body, Key(slot, Line(n))).Some?
    ensures Sets(body, Key(slot, Line(n))) && LineShown(body, slot, n, Plain(Value(body, Key(slot, Line(n))).value))
  {
    hide Value, LastSets, Sets, Plain, Shown;
    var value := Value(body, Key(slot, Line(n))).value;
    LastLineWins(body, Key(slot, Line(n)), value);
    ShownIs(value);
  }

  /** `s` is what the section says of the slot: the name last set, the colour last set when it
      is a number and 13 otherwise, and the lines last set, in the order of their numbers. */
  ghost predicate Says(body: seq<string>, slot: Slot, s: Social) {
    && s.slot == slot
    && (forall name :: LastSets(body, Key(slot, Name), name) ==> s.name == Shown(name))
    && (!Sets(body, Key(slot, Name)) ==> s.name == "")
    && (forall color :: LastSets(body, Key(slot, Color), color) ==>
          s.color == match ParseInt(color) { case Some(n) => n case None => 13 })
    && (!Sets(body, Key(slot, Color)) ==> s.color == 13)
    && LinesSaid(body, slot, s.lines)
  }

  ghost predicate LinesSaid(body: seq<string>, slot: Slot, lines: seq<string>) {
    exists at: seq<nat> :: AllNumbers(body, slot, at) && LinesShown(body, slot, at, lines)
  }

  /** `at` is the numbers of all the slot's lines, in order. */
  ghost predicate AllNumbers(body: seq<string>, slot: Slot, at: seq<nat>) {
    && (forall k, m | 0 <= k < m < |at| :: at[k] < at[m])
    && forall n: nat :: n in at <==> Sets(body, Key(slot, Line(n)))
  }

  lemma SocialSays(body: seq<string>, slot: Slot)
    ensures Says(body, slot, SocialIn(body, slot))
  {
    hide Value, LastSets, LastAt, MaxLine, LinesBelow, Shown, ParseInt, Plain, Sets, LinesSaid;
    LastLineWins(body, Key(slot, Name), "");
    LastLineWins(body, Key(slot, Color), "");
    forall name ensures LastSets(body, Key(slot, Name), name) ==> NameIn(body, slot) == Shown(name) {
      LastLineWins(body, Key(slot, Name), name);
      ShownIs(name);
    }
    forall color ensures LastSets(body, Key(slot, Color), color) ==> ColorIn(body, slot) == ColorFrom(color) {
      LastLineWins(body, Key(slot, Color), color);
    }
    AllLinesSaid(body, slot);
  }

  lemma AllLinesSaid(body: seq<string>, slot: Slot)
    ensures LinesSaid(body, slot, LinesBelow(body, slot, MaxLine(body) + 1))
  {
    hide Value, LastSets, LastAt, MaxLine, LinesBelow, Sets, LinesShown;
    var top: nat := MaxLine(body) + 1;
    var at := LinesAre(body, slot, top);
    forall n: nat | n >= top ensures !Sets(body, Key(slot, Line(n))) {
      LastLineWins(body, Key(slot, Line(n)), "");
      if Value(body, Key(slot, Line(n))).Some? { ValueIsSeen(body, Key(slot, Line(n))); }
    }
    assert AllNumbers(body, slot, at);
  }

  /** A slot is in the section exactly when some line sets a key of it. */
  lemma {:induction false} SlotsAre(body: seq<string>, slot: Slot)
    ensures slot in Slots(body) <==> exists i | 0 <= i < |body| :: slot in SlotOf(body[i])
  {
    hide SlotOf;
    if body != [] {
      var init := body[..|body| - 1];
      SlotsAre(init, slot);
      assert forall i | 0 <= i < |init| :: init[i] == body[i];
    }
  }

  // -- how many lines ------------------------------------------------------------------------------

  ghost predicate SomeLine(body: seq<string>, n: nat) { exists slot :: Sets(body, Key(slot, Line(n))) }

  /** A file is read with as many lines as its highest line number, but never with fewer than
      five. */
  lemma MostLines(body: seq<string>)
    ensures Most(body) >= 5 && (Most(body) > 5 ==> SomeLine(body, Most(body)))
    ensures forall n: nat | SomeLine(body, n) :: n <= Most(body)
  {
    hide Value, Sets, MaxLine;
    var slot := HighestIsSet(body);
    if MaxLine(body) > 0 { LastLineWins(body, Key(slot, Line(MaxLine(body))), ""); }
    forall n: nat | SomeLine(body, n) ensures n <= MaxLine(body) {
      var slot :| Sets(body, Key(slot, Line(n)));
      LastLineWins(body, Key(slot, Line(n)), "");
      ValueIsSeen(body, Key(slot, Line(n)));
    }
  }

  lemma {:induction false} HighestIsSet(body: seq<string>) returns (slot: Slot)
    ensures MaxLine(body) > 0 ==> Value(body, Key(slot, Line(MaxLine(body)))).Some?
  {
    hide EntryOf;
    slot := (0, 0);
    if body != [] {
      slot := HighestIsSet(body[..|body| - 1]);
      var entry := EntryOf(body[|body| - 1]);
      if entry.Some? && entry.value.key.field == Line(MaxLine(body)) { slot := entry.value.key.slot; }
    }
  }

  // -- cleaning ---------------------------------------------------------------------------------------

  /** The lines up to the last that shows anything. */
  ghost predicate VisibleLines(lines: seq<string>, n: nat) {
    && n <= |lines| && (n > 0 ==> Strip(lines[n - 1]) != "")
    && forall k | n <= k < |lines| :: Strip(lines[k]) == ""
  }

  /** `c` is `s` cleaned: name and lines trimmed, the colour brought within 0 and 255, the blank
      lines at the end dropped and then no more than `most` lines kept. */
  ghost predicate CleanedTo(s: Social, most: nat, c: Social) {
    && c.slot == s.slot && c.name == Strip(s.name)
    && c.color == (if s.color < 0 then 0 else if s.color > 255 then 255 else s.color)
    && exists n :: VisibleLines(s.lines, n) && LinesCut(s.lines, n, most, c.lines)
  }

  ghost predicate LinesCut(lines: seq<string>, n: nat, most: nat, kept: seq<string>) {
    && n <= |lines| && |kept| == (if n < most then n else most)
    && forall k | 0 <= k < |kept| :: kept[k] == Strip(lines[k])
  }

  predicate ShowsAnything(s: Social) { s.name != "" || exists k | 0 <= k < |s.lines| :: s.lines[k] != "" }

  lemma CleanIs(s: Social, most: nat, c: Social)
    ensures CleanedTo(s, most, c) <==> c == Clean(s, most)
    ensures IsEmpty(Clean(s, most)) <==> !ShowsAnything(Clean(s, most))
  {
    hide Strip, DropBlanks, StripAll, IsEmpty;
    var r := Clean(s, most);
    var n := CleanedLines(s.lines, most);
    if CleanedTo(s, most, c) {
      var m :| VisibleLines(s.lines, m) && LinesCut(s.lines, m, most, c.lines);
      OneVisible(s.lines, n, m);
      assert c.lines == r.lines;
    }
    TrimmedShows(r) by {
      StripsTwice(s.name);
      forall k | 0 <= k < |r.lines| ensures Strip(r.lines[k]) == r.lines[k] { StripsTwice(s.lines[k]); }
    }
  }

  lemma CleanedLines(lines: seq<string>, most: nat) returns (n: nat)
    ensures VisibleLines(lines, n) && LinesCut(lines, n, most, Cut(DropBlanks(StripAll(lines)), most))
  {
    hide Strip;
    var all := StripAll(lines);
    n := |DropBlanks(all)|;
    assert forall k | 0 <= k < |lines| :: all[k] == Strip(lines[k]);
    assert forall k | 0 <= k < n :: DropBlanks(all)[k] == all[k];
  }

  lemma TrimmedShows(s: Social)
    requires Strip(s.name) == s.name && forall k | 0 <= k < |s.lines| :: Strip(s.lines[k]) == s.lines[k]
    ensures IsEmpty(s) <==> !ShowsAnything(s)
  {
    hide Strip;
  }

  lemma OneVisible(lines: seq<string>, n: nat, m: nat)
    requires VisibleLines(lines, n) && VisibleLines(lines, m)
    ensures n == m
  {
    hide Strip;
  }

  lemma StripsTwice(s: string)
    ensures Strip(Strip(s)) == Strip(s)
  {
    hide Strip;
    StripTrimmed(Strip(s));
  }

  // -- one social a slot ------------------------------------------------------------------------------

  /** The social at `i` is for the slot and shows something once cleaned, and no later one does. */
  ghost predicate KeptAt(socials: seq<Social>, most: nat, slot: Slot, i: int) {
    && ShowsAt(socials, most, slot, i)
    && forall j | i < j :: !ShowsAt(socials, most, slot, j)
  }

  predicate ShowsAt(socials: seq<Social>, most: nat, slot: Slot, i: int) {
    0 <= i < |socials| && socials[i].slot == slot && ShowsAnything(Clean(socials[i], most))
  }

  /** Normalising keeps, for each slot, the last social that shows anything once cleaned. */
  lemma {:induction false} LastSocialWins(socials: seq<Social>, most: nat, slot: Slot)
    ensures slot in BySlot(socials, most) <==> exists i :: KeptAt(socials, most, slot, i)
    ensures forall i | KeptAt(socials, most, slot, i) ::
      slot in BySlot(socials, most) && BySlot(socials, most)[slot] == Clean(socials[i], most)
  {
    hide Clean, IsEmpty, ShowsAnything;
    if socials != [] {
      var n := |socials| - 1;
      var init, last := socials[..n], socials[n];
      LastSocialWins(init, most, slot);
      CleanIs(last, most, last);
      CleanSlot(last, most);
      assert forall i | 0 <= i < n :: init[i] == socials[i];
      assert forall i | i < n :: ShowsAt(socials, most, slot, i) <==> ShowsAt(init, most, slot, i);
      if ShowsAt(socials, most, slot, n) {
        assert KeptAt(socials, most, slot, n);
      } else {
        forall i ensures KeptAt(socials, most, slot, i) <==> KeptAt(init, most, slot, i) {}
      }
    }
  }

  lemma CleanSlot(s: Social, most: nat)
    ensures Clean(s, most).slot == s.slot
  {}

  // -- a file's socials --------------------------------------------------------------------------------

  /** A slot is read exactly when what the section says of it, cleaned and cut to the file's
      number of lines, shows anything; and it is read as that. */
  lemma ReadingIs(body: seq<string>, slot: Slot)
    ensures var read := ReadSlots(body);
      exists s :: Says(body, slot, s) &&
        (slot in read <==> ShowsAnything(Clean(s, Most(body)))) && (slot in read ==> read[slot] == Clean(s, Most(body)))
  {
    SocialSays(body, slot);
    var s := SocialIn(body, slot);
    CleanIs(s, Most(body), s);
    if slot !in Slots(body) {
      NothingSaid(body, slot);
      EmptyShowsNothing(s, Most(body));
    }
    hide Says, SocialIn, Slots, Most, Clean, ShowsAnything, IsEmpty;
    assert slot in ReadSlots(body) <==> slot in Slots(body) && !IsEmpty(Clean(s, Most(body)));
  }

  lemma NothingSaid(body: seq<string>, slot: Slot)
    requires slot !in Slots(body)
    ensures SocialIn(body, slot).name == "" && SocialIn(body, slot).lines == []
  {
    hide Value, Slots, LinesBelow;
    forall key: Key | key.slot == slot ensures Value(body, key) == None {
      if Value(body, key).Some? { ValueIsSeen(body, key); }
    }
    assert Key(slot, Name).slot == slot;
    NoLinesSaid(body, slot, MaxLine(body) + 1);
  }

  lemma {:induction false} NoLinesSaid(body: seq<string>, slot: Slot, top: nat)
    requires forall key: Key | key.slot == slot :: Value(body, key) == None
    ensures LinesBelow(body, slot, top) == []
  {
    hide Value;
    if top > 0 {
      NoLinesSaid(body, slot, top - 1);
      assert Key(slot, Line(top - 1)).slot == slot;
    }
  }

  lemma EmptyShowsNothing(s: Social, most: nat)
    requires s.name == "" && s.lines == []
    ensures !ShowsAnything(Clean(s, most))
  {
    hide Strip;
    StripTrimmed("");
  }

  /** The socials read are those of the slots read, by page and on a page by button. */
  lemma ReadsInSlotOrder(body: seq<string>)
    ensures var list, read := Read(body), ReadSlots(body);
      && (forall slot | slot in read :: read[slot].slot == slot && read[slot] in list)
      && (forall s | s in list :: s.slot in read && read[s.slot] == s)
      && forall i, j | 0 <= i < j < |list| ::
           var a, b := list[i].slot, list[j].slot; a.0 < b.0 || (a.0 == b.0 && a.1 < b.1)
  {
    hide SocialIn, Slots, Most, Clean, IsEmpty, InOrder;
    var list, read := Read(body), ReadSlots(body);
    forall slot | slot in read ensures read[slot].slot == slot {
      CleanSlot(SocialIn(body, slot), Most(body));
      SaysItsSlot(body, slot);
    }
    InOrderMembers(read);
    InOrderAscends(read);
    forall i, j | 0 <= i < j < |list|
      ensures var a, b := list[i].slot, list[j].slot; a.0 < b.0 || (a.0 == b.0 && a.1 < b.1)
    {
      assert Before(list[i].slot, list[j].slot);
    }
  }

  lemma SaysItsSlot(body: seq<string>, slot: Slot)
    ensures SocialIn(body, slot).slot == slot
  {
    hide NameIn, ColorIn, LinesBelow, MaxLine;
  }
}
