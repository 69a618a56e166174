/** Reading back what was written. */
module SocialRoundTrip {
  import opened Options
  import opened Text
  import opened EqIni
  import opened SocialKeys
  import opened SocialValues
  import opened SocialLines
  import opened SocialWriter
  import opened SocialMerge

  // -- what the wanted pairs say about a key -----------------------------------------------------

  /** The value a social writes for a key of its slot. */
  ghost function Written(s: Social, present: set<string>, field: Field): Option<string>
    requires 0 <= s.color
  {
    match field
    case Name => if s.name != "" || Spelled(Key(s.slot, Name), present) then Some(s.name) else None
    case Color =>
      if s.color != DEFAULT_COLOR || Spelled(Key(s.slot, Color), present) then Some(Decimal(s.color)) else None
    case Line(index) => if 1 <= index <= |s.lines| then Some(s.lines[index - 1]) else None
  }

  lemma {:induction false} LineKeysSay(slot: Slot, lines: seq<string>, key: Key)
    ensures Lookup(LineKeys(slot, lines), key) ==
      if key.slot == slot && key.field.Line? && 1 <= key.field.index <= |lines| then Some(lines[key.field.index - 1])
      else None
  {
    if lines != [] {
      var init := lines[..|lines| - 1];
      LineKeysSay(slot, init, key);
      assert LineKeys(slot, lines) == LineKeys(slot, init) + [(Key(slot, Line(|lines|)), lines[|lines| - 1])];
      LookupOne(LineKeys(slot, init), (Key(slot, Line(|lines|)), lines[|lines| - 1]), key);
    }
  }

  lemma SlotKeysSay(s: Social, present: set<string>, key: Key)
    requires 0 <= s.color
    ensures Lookup(SlotKeys(s, present), key) == if key.slot == s.slot then Written(s, present, key.field) else None
  {
    hide Spelled, Decimal, LineKeys, Lookup;
    var name := if s.name != "" || Spelled(Key(s.slot, Name), present) then [(Key(s.slot, Name), s.name)] else [];
    var color := if s.color != DEFAULT_COLOR || Spelled(Key(s.slot, Color), present)
      then [(Key(s.slot, Color), Decimal(s.color))] else [];
    LineKeysSay(s.slot, s.lines, key);
    LookupConcat(name, color, key);
    LookupConcat(name + color, LineKeys(s.slot, s.lines), key);
    LookupNothing(key);
    LookupOnly((Key(s.slot, Name), s.name), key);
    LookupOnly((Key(s.slot, Color), Decimal(s.color)), key);
  }

  lemma LookupNothing(key: Key)
    ensures Lookup([], key) == None
  {}

  lemma LookupOnly(p: Pair, key: Key)
    ensures Lookup([p], key) == if p.0 == key then Some(p.1) else None
  {
    assert [] + [p] == [p];
    LookupOne([], p, key);
  }

  lemma SlotKeysDiffer(s: Social, present: set<string>)
    requires 0 <= s.color
    ensures Distinct(SlotKeys(s, present)) && forall p | p in SlotKeys(s, present) :: p.0.slot == s.slot
  {
    hide Spelled, Decimal, LineKeys;
    LineKeysAre(s.slot, s.lines);
    var lines := LineKeys(s.slot, s.lines);
    assert forall i | 0 <= i < |lines| :: lines[i] in lines;
  }

  lemma LineKeysAre(slot: Slot, lines: seq<string>)
    ensures Distinct(LineKeys(slot, lines))
    ensures forall p | p in LineKeys(slot, lines) :: p.0.slot == slot && p.0.field.Line? && p.1 in lines
  {}

  /** The wanted pairs say what each social writes, and nothing about any other slot. */
  lemma {:induction false} DesiredSays(socials: seq<Social>, present: set<string>, key: Key)
    requires Coloured(socials) && OneEach(socials)
    ensures forall s | s in socials && s.slot == key.slot ::
      Lookup(Desired(socials, present), key) == Written(s, present, key.field)
    ensures (forall s | s in socials :: s.slot != key.slot) ==> Lookup(Desired(socials, present), key) == None
    ensures Distinct(Desired(socials, present))
    ensures forall p | p in Desired(socials, present) :: exists s | s in socials :: s.slot == p.0.slot
  {
    hide Written, SlotKeys, Lookup;
    if socials == [] {
      LookupFinds([], key);
    } else {
      var init, last := socials[..|socials| - 1], socials[|socials| - 1];
      assert forall s | s in init :: s in socials;
      DesiredSays(init, present, key);
      SlotKeysSay(last, present, key);
      SlotKeysDiffer(last, present);
      var a, b := Desired(init, present), SlotKeys(last, present);
      LookupConcat(a, b, key);
      assert forall s | s in init :: s.slot != last.slot;
      assert forall s | s in socials :: s in init || s == last;
      assert last in socials;
    }
  }

  lemma {:induction false} DesiredTrimmed(socials: seq<Social>, present: set<string>, most: nat)
    requires Coloured(socials) && forall s | s in socials :: IsClean(s, most)
    ensures AllTrimmed(Desired(socials, present))
  {
    hide Trimmed, IsEmpty, Decimal;
    if socials != [] {
      var init, last := socials[..|socials| - 1], socials[|socials| - 1];
      assert forall s | s in init :: s in socials;
      DesiredTrimmed(init, present, most);
      DecimalTrimmed(last.color);
      LineKeysAre(last.slot, last.lines);
      assert last in socials;
    }
  }

  lemma DecimalTrimmed(n: nat)
    ensures Trimmed(Decimal(n))
  {
    hide Decimal;
    var s := Decimal(n);
    assert IsDigit(s[0]) && IsDigit(s[|s| - 1]);
  }

  // -- the value of every key after a write ----------------------------------------------------------

  /** After a write, a key of a written slot has what its social writes and any other key what
      clearing leaves it. */
  lemma WriteSets(body: seq<string>, socials: seq<Social>, clear: bool, key: Key)
    requires NoHeaders(body)
    ensures var c := Cleaned(body, socials);
      AllClean(c, Most(body)) &&
      NoHeaders(WriteBody(body, socials, clear)) &&
      Value(WriteBody(body, socials, clear), key) ==
        if key.slot in c then Written(c[key.slot], Present(body), key.field)
        else Untouched(body, key, clear, UsesNull(body))
  {
    hide Value, Lookup, Merge, Finish, Desired, Written, Present, UsesNull, OpensSection, Before, Untouched,
      IsClean, Most;
    var c := Cleaned(body, socials);
    CleanedIs(body, socials);
    var cleaned := Normalize(socials, Most(body));
    InOrderMembers(c);
    InOrderAscends(c);
    AscendingIsOneEach(cleaned);
    DesiredSays(cleaned, Present(body), key);
    DesiredTrimmed(cleaned, Present(body), Most(body));
    var wanted := Desired(cleaned, Present(body));
    MergeTracks(body, wanted, Owned(cleaned), clear, UsesNull(body), key);
    FinishSets(Merge(body, wanted, Owned(cleaned), clear, UsesNull(body)), key);
    if key.slot in c { assert c[key.slot] in cleaned && c[key.slot].slot == key.slot; }
    assert key.slot in Owned(cleaned) <==> key.slot in c;
  }

  // -- reading a written slot ------------------------------------------------------------------------

  function PlainAll(lines: seq<string>): seq<string> {
    seq(|lines|, i requires 0 <= i < |lines| => Plain(lines[i]))
  }

  /** A written social as it comes back: the sentinel is read as nothing, and then a line it
      leaves blank at the end goes. */
  function Reread(s: Social): Social {
    Social(s.slot, Plain(s.name), s.color, DropBlanks(PlainAll(s.lines)))
  }

  /** A social that comes back as it was written. */
  predicate Faithful(s: Social) {
    && !IsNull(s.name)
    && (forall i | 0 <= i < |s.lines| :: !IsNull(s.lines[i]))
    && (s.lines == [] || s.lines[|s.lines| - 1] != "")
  }

  ghost predicate AllFaithful(c: map<Slot, Social>) { forall slot | slot in c :: Faithful(c[slot]) }

  lemma {:induction false} LinesReadBack(body: seq<string>, slot: Slot, lines: seq<string>, top: nat)
    requires forall i: nat :: Value(body, Key(slot, Line(i))) == if 1 <= i <= |lines| then Some(lines[i - 1]) else None
    ensures LinesBelow(body, slot, top) ==
      PlainAll(lines[..if top == 0 then 0 else if top - 1 < |lines| then top - 1 else |lines|])
  {
    hide Value, Plain;
    if top > 0 { LinesReadBack(body, slot, lines, top - 1); }
  }

  /** A written slot's keys give its social, its lines within the highest line number. */
  lemma WrittenSlotReads(body: seq<string>, socials: seq<Social>, clear: bool, slot: Slot)
    requires NoHeaders(body) && slot in Cleaned(body, socials)
    ensures var s := Cleaned(body, socials)[slot];
      var w := WriteBody(body, socials, clear);
      && IsClean(s, Most(body)) && s.slot == slot && slot in Slots(w) && |s.lines| <= MaxLine(w)
      && SocialIn(w, slot) == Social(slot, Plain(s.name), s.color, PlainAll(s.lines))
  {
    hide Value, WriteBody, MaxLine, Slots, LinesBelow, Trimmed, Spelled, Present, Most, Decimal, ParseInt,
      Untouched, Strip;
    BySlotIsClean(socials, Most(body));
    var s := Cleaned(body, socials)[slot];
    var w := WriteBody(body, socials, clear);
    forall key: Key | key.slot == slot
      ensures Value(w, key) == Written(s, Present(body), key.field)
    {
      WriteSets(body, socials, clear, key);
    }
    forall i: nat
      ensures Value(w, Key(slot, Line(i))) == if 1 <= i <= |s.lines| then Some(s.lines[i - 1]) else None
    {
      assert Key(slot, Line(i)).field == Line(i);
    }
    LinesReadBack(w, slot, s.lines, MaxLine(w) + 1);
    if s.lines != [] { ValueIsSeen(w, Key(slot, Line(|s.lines|))); }
    else {
      assert s.name != "" by { if s.name == "" { StripTrimmed(""); } }
      ValueIsSeen(w, Key(slot, Name));
    }
    assert s.lines[..|s.lines|] == s.lines;
    ParseIntDecimal(s.color);
    NameReads(s, w, Present(body));
    ColorReads(s, w, Present(body));
  }

  lemma NameReads(s: Social, w: seq<string>, present: set<string>)
    requires 0 <= s.color && Value(w, Key(s.slot, Name)) == Written(s, present, Name)
    ensures NameIn(w, s.slot) == Plain(s.name)
  {
    hide Value, Spelled;
  }

  lemma ColorReads(s: Social, w: seq<string>, present: set<string>)
    requires 0 <= s.color && Value(w, Key(s.slot, Color)) == Written(s, present, Color)
    ensures ColorIn(w, s.slot) == s.color
  {
    hide Value, Spelled, ParseInt, Decimal;
    ParseIntDecimal(s.color);
  }

  lemma CleanOfRead(s: Social, most: nat, cap: nat)
    requires IsClean(s, most) && |s.lines| <= cap
    ensures Clean(Social(s.slot, Plain(s.name), s.color, PlainAll(s.lines)), cap) == Reread(s)
  {
    hide Strip, Trimmed, IsNull, IsEmpty;
    PlainTrimmed(s.name);
    forall i | 0 <= i < |s.lines| ensures Strip(Plain(s.lines[i])) == Plain(s.lines[i]) { PlainTrimmed(s.lines[i]); }
    assert StripAll(PlainAll(s.lines)) == PlainAll(s.lines);
  }

  lemma PlainTrimmed(value: string)
    requires Trimmed(value)
    ensures Strip(Plain(value)) == Plain(value)
  {
    hide Strip, IsNull;
    StripTrimmed(value);
    StripTrimmed("");
  }

  /** Whatever else is in the file and whether or not the rest is cleared, a slot that was
      written reads back as its social, less what the sentinel and trailing blanks take. */
  lemma OwnedSlotsReadBack(body: seq<string>, socials: seq<Social>, clear: bool, slot: Slot)
    requires NoHeaders(body) && slot in Cleaned(body, socials)
    ensures var s := Cleaned(body, socials)[slot];
      var read := ReadSlots(WriteBody(body, socials, clear));
      && (slot in read <==> !IsEmpty(Reread(s)))
      && (slot in read ==> read[slot] == Reread(s))
  {
    hide WriteBody, MaxLine, Slots, SocialIn, IsClean, Cleaned, Reread, IsEmpty, Clean;
    WrittenSlotReads(body, socials, clear, slot);
    var s := Cleaned(body, socials)[slot];
    var w := WriteBody(body, socials, clear);
    CleanOfRead(s, Most(body), Most(w));
  }

  // -- clearing writes ---------------------------------------------------------------------------------

  function RereadAll(c: map<Slot, Social>): map<Slot, Social> {
    map slot | slot in c && !IsEmpty(Reread(c[slot])) :: Reread(c[slot])
  }

  lemma {:induction false} NoLines(body: seq<string>, slot: Slot, top: nat)
    requires forall i: nat :: Value(body, Key(slot, Line(i))) == None
    ensures LinesBelow(body, slot, top) == []
  {
    hide Value;
    if top > 0 { NoLines(body, slot, top - 1); }
  }

  lemma ClearedSlotIsEmpty(body: seq<string>, socials: seq<Social>, slot: Slot)
    requires NoHeaders(body) && slot !in Cleaned(body, socials)
    ensures slot !in ReadSlots(WriteBody(body, socials, true))
  {
    hide Value, WriteBody, MaxLine, Slots, Strip, Clean, Present, UsesNull, Written, Most, Cleaned, LinesBelow, ColorIn;
    var w := WriteBody(body, socials, true);
    forall key: Key | key.slot == slot ensures Value(w, key) == Untouched(body, key, true, UsesNull(body)) {
      WriteSets(body, socials, true, key);
    }
    forall i: nat ensures Value(w, Key(slot, Line(i))) == None {
      assert Key(slot, Line(i)).field == Line(i);
    }
    NoLines(w, slot, MaxLine(w) + 1);
    assert NameIn(w, slot) == "";
    EmptyCleans(slot, ColorIn(w, slot), Most(w));
  }

  lemma EmptyCleans(slot: Slot, color: int, most: nat)
    ensures IsEmpty(Clean(Social(slot, "", color, []), most))
  {
    hide Strip;
    StripTrimmed("");
  }

  /** With the missing slots cleared, the section reads back as exactly the socials written. */
  lemma ClearingWriteReadsBack(body: seq<string>, socials: seq<Social>)
    requires NoHeaders(body)
    ensures ReadSlots(WriteBody(body, socials, true)) == RereadAll(Cleaned(body, socials))
    ensures Read(WriteBody(body, socials, true)) == InOrder(RereadAll(Cleaned(body, socials)))
  {
    hide WriteBody, ReadSlots, Cleaned, Reread, IsEmpty;
    var c := Cleaned(body, socials);
    var read := ReadSlots(WriteBody(body, socials, true));
    forall slot ensures slot in read <==> slot in RereadAll(c)
                ensures slot in read ==> read[slot] == RereadAll(c)[slot]
    {
      if slot in c { OwnedSlotsReadBack(body, socials, true, slot); }
      else { ClearedSlotIsEmpty(body, socials, slot); }
    }
    assert read == RereadAll(c);
  }

  lemma FaithfulRereads(s: Social, most: nat)
    requires IsClean(s, most)
    ensures Faithful(s) <==> Reread(s) == s
  {
    hide IsEmpty, Trimmed, Lower;
    if Reread(s) == s {
      assert |PlainAll(s.lines)| == |s.lines|;
      assert PlainAll(s.lines) == s.lines;
      assert NULL != "";
      forall i | 0 <= i < |s.lines| ensures !IsNull(s.lines[i]) {
        assert PlainAll(s.lines)[i] == s.lines[i];
        EmptyIsNotNull();
      }
      EmptyIsNotNull();
    }
    if Faithful(s) {
      assert PlainAll(s.lines) == s.lines;
    }
  }

  lemma EmptyIsNotNull()
    ensures !IsNull("")
  {
    assert |Lower("")| == 0 && |Lower(NULL)| == 6;
  }

  /** The read-back list is the normalised list exactly when no value is the sentinel and no
      cut exposed a blank last line. */
  lemma ExactlyFaithfulWritesReadBack(body: seq<string>, socials: seq<Social>)
    requires NoHeaders(body)
    ensures Read(WriteBody(body, socials, true)) == Normalize(socials, Most(body))
      <==> AllFaithful(Cleaned(body, socials))
  {
    hide WriteBody, ReadSlots, Reread, IsEmpty, IsClean, Faithful, BySlot, InOrder, Most;
    var c := Cleaned(body, socials);
    ClearingWriteReadsBack(body, socials);
    BySlotIsClean(socials, Most(body));
    forall slot | slot in c ensures Faithful(c[slot]) <==> Reread(c[slot]) == c[slot]
                            ensures Reread(c[slot]).slot == slot && !IsEmpty(c[slot])
    {
      FaithfulRereads(c[slot], Most(body));
      RereadSlot(c[slot], Most(body));
    }
    assert Slotted(RereadAll(c));
    InOrderInjective(RereadAll(c), c);
    RereadAllIs(c);
  }

  lemma RereadSlot(s: Social, most: nat)
    requires IsClean(s, most)
    ensures Reread(s).slot == s.slot && !IsEmpty(s)
  {}

  lemma RereadAllIs(c: map<Slot, Social>)
    requires forall slot | slot in c :: !IsEmpty(c[slot])
    ensures RereadAll(c) == c <==> forall slot | slot in c :: Reread(c[slot]) == c[slot]
  {
    hide Reread, IsEmpty;
    if RereadAll(c) == c {
      forall slot | slot in c ensures Reread(c[slot]) == c[slot] { assert slot in RereadAll(c); }
    }
  }
}
