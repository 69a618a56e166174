/** The lines of the [Socials] section: which key each one sets, and what they add up to. */
module SocialLines {
  import opened Options
  import opened Text
  import opened EqIni
  import opened SocialKeys
  import opened SocialValues

  const NULL := "*NULL*"

  predicate IsNull(value: string) { Lower(value) == Lower(NULL) }

  /** A value as it is read: the sentinel means nothing. */
  function Plain(value: string): string { if IsNull(value) then "" else value }

  datatype Entry = Entry(raw: string, key: Key, value: string)

  /** The social key a line sets, as the line spells it. */
  function EntryOf(line: string): Option<Entry> {
    match SplitKeyValue(line)
    case None => None
    case Some((raw, value)) => match ParseKey(raw)
      case None => None
      case Some(key) => Some(Entry(raw, key, value))
  }

  /** What the last line that sets `key` sets it to. */
  function Value(body: seq<string>, key: Key): Option<string> {
    if body == [] then None
    else
      var entry := EntryOf(body[|body| - 1]);
      if entry.Some? && entry.value.key == key then Some(entry.value.value) else Value(body[..|body| - 1], key)
  }

  function SlotOf(line: string): set<Slot> {
    match EntryOf(line) case None => {} case Some(entry) => {entry.key.slot}
  }

  function SpellingOf(line: string): set<string> {
    match EntryOf(line) case None => {} case Some(entry) => {Lower(entry.raw)}
  }

  /** The slots with any key at all. */
  function Slots(body: seq<string>): set<Slot> {
    if body == [] then {} else Slots(body[..|body| - 1]) + SlotOf(body[|body| - 1])
  }

  /** The highest Line number on any key. */
  function MaxLine(body: seq<string>): nat {
    if body == [] then 0
    else
      var most := MaxLine(body[..|body| - 1]);
      match EntryOf(body[|body| - 1])
      case None => most
      case Some(entry) => if entry.key.field.Line? && entry.key.field.index > most then entry.key.field.index else most
  }

  /** The keys present, as spelled but for case. */
  function Present(body: seq<string>): set<string> {
    if body == [] then {} else Present(body[..|body| - 1]) + SpellingOf(body[|body| - 1])
  }

  /** Whether the file pads with the sentinel. */
  predicate UsesNull(body: seq<string>) {
    body != [] && (UsesNull(body[..|body| - 1]) ||
      match EntryOf(body[|body| - 1]) case None => false case Some(entry) => IsNull(entry.value))
  }

  // -- adding lines ------------------------------------------------------------------------

  lemma ValueAfter(body: seq<string>, line: string, key: Key)
    ensures Value(body + [line], key) ==
      if EntryOf(line).Some? && EntryOf(line).value.key == key then Some(EntryOf(line).value.value)
      else Value(body, key)
  {
    hide EntryOf;
    assert (body + [line])[..|body|] == body;
  }

  lemma {:induction false} ValueConcat(a: seq<string>, b: seq<string>, key: Key)
    ensures Value(a + b, key) == if Value(b, key).Some? then Value(b, key) else Value(a, key)
  {
    hide EntryOf;
    if b == [] {
      assert a + b == a;
    } else {
      var init, line := b[..|b| - 1], b[|b| - 1];
      ValueConcat(a, init, key);
      assert b == init + [line] && a + b == (a + init) + [line];
      ValueAfter(init, line, key);
      ValueAfter(a + init, line, key);
    }
  }

  lemma {:induction false} NoEntryNoValue(body: seq<string>, key: Key)
    requires forall line | line in body :: EntryOf(line).None?
    ensures Value(body, key) == None
  {
    hide EntryOf;
    if body != [] { NoEntryNoValue(body[..|body| - 1], key); }
  }

  lemma {:induction false} ValueIsSeen(body: seq<string>, key: Key)
    requires Value(body, key).Some?
    ensures key.slot in Slots(body)
    ensures key.field.Line? ==> key.field.index <= MaxLine(body)
  {
    hide EntryOf;
    var entry := EntryOf(body[|body| - 1]);
    if !(entry.Some? && entry.value.key == key) { ValueIsSeen(body[..|body| - 1], key); }
  }

  lemma BlankHasNoEntry(line: string)
    requires Strip(line) == ""
    ensures EntryOf(line).None? && !OpensSection(line)
  {
    StripBlank(line);
    BlankHasNoKey(line);
  }

  /** A key line sets its key, and opens no section. */
  lemma KeyLineEntry(raw: string, key: Key, value: string)
    requires IsKey(raw) && ParseKey(raw) == Some(key) && Trimmed(value)
    ensures EntryOf(KeyLine(raw, value)) == Some(Entry(raw, key, value)) && !OpensSection(KeyLine(raw, value))
  {
    hide ParseKey, KeyLine, SplitKeyValue, IsKey, Trimmed;
    SplitJoined(raw, value);
  }

  lemma EntryIsKeyed(line: string)
    requires EntryOf(line).Some?
    ensures var entry := EntryOf(line).value;
      IsKey(entry.raw) && ParseKey(entry.raw) == Some(entry.key) && Trimmed(entry.value) && !OpensSection(line)
  {
    hide ParseKey, SplitKeyValue, IsKey, Trimmed, OpensSection;
    SplitGivesKey(line);
  }

  // -- a slot's social as the lines give it --------------------------------------------------

  function ColorFrom(value: string): int {
    match ParseInt(value) case Some(n) => n case None => DEFAULT_COLOR
  }

  /** The lines with an index below `top`, in index order. */
  function LinesBelow(body: seq<string>, slot: Slot, top: nat): seq<string> {
    if top == 0 then [] else LinesBelow(body, slot, top - 1) + LineAt(body, slot, top - 1)
  }

  function LineAt(body: seq<string>, slot: Slot, index: nat): seq<string> {
    match Value(body, Key(slot, Line(index))) case Some(value) => [Plain(value)] case None => []
  }

  function NameIn(body: seq<string>, slot: Slot): string {
    match Value(body, Key(slot, Name)) case Some(value) => Plain(value) case None => ""
  }

  function ColorIn(body: seq<string>, slot: Slot): int {
    match Value(body, Key(slot, Color)) case Some(value) => ColorFrom(value) case None => DEFAULT_COLOR
  }

  function SocialIn(body: seq<string>, slot: Slot): Social {
    Social(slot, NameIn(body, slot), ColorIn(body, slot), LinesBelow(body, slot, MaxLine(body) + 1))
  }

  function Most(body: seq<string>): nat { if MaxLine(body) > MAX_LINES then MaxLine(body) else MAX_LINES }

  /** The socials of a section, by slot. */
  function ReadSlots(body: seq<string>): map<Slot, Social> {
    map slot | slot in Slots(body) && !IsEmpty(Clean(SocialIn(body, slot), Most(body)))
      :: Clean(SocialIn(body, slot), Most(body))
  }

  function Read(body: seq<string>): seq<Social> { InOrder(ReadSlots(body)) }
}
