/** The key-level merge that writes socials into the lines of a section. */
module SocialWriter {
  import opened Text
  import opened EqIni
  import opened SocialKeys
  import opened SocialValues
  import opened SocialLines

  type Pair = (Key, string)

  // -- the keys a social owns ----------------------------------------------------------------

  function LineKeys(slot: Slot, lines: seq<string>): seq<Pair> {
    seq(|lines|, i requires 0 <= i < |lines| => (Key(slot, Line(i + 1)), lines[i]))
  }

  predicate Spelled(key: Key, present: set<string>) { Lower(KeyText(key)) in present }

  /** What a social writes, in order: a name or colour only where it says something or the
      file already carries that key. */
  function SlotKeys(s: Social, present: set<string>): seq<Pair>
    requires 0 <= s.color
  {
    (if s.name != "" || Spelled(Key(s.slot, Name), present) then [(Key(s.slot, Name), s.name)] else []) +
    (if s.color != DEFAULT_COLOR || Spelled(Key(s.slot, Color), present)
     then [(Key(s.slot, Color), Decimal(s.color))] else []) +
    LineKeys(s.slot, s.lines)
  }

  predicate Coloured(socials: seq<Social>) { forall s | s in socials :: 0 <= s.color }

  function Desired(socials: seq<Social>, present: set<string>): seq<Pair>
    requires Coloured(socials)
  {
    if socials == [] then [] else Desired(socials[..|socials| - 1], present) + SlotKeys(socials[|socials| - 1], present)
  }

  function Owned(socials: seq<Social>): set<Slot> { set s | s in socials :: s.slot }

  // -- the merge -----------------------------------------------------------------------------

  /** The first pair spelled `low` but for case, or |pairs|. */
  function FindSpelling(pairs: seq<Pair>, low: string): (i: nat)
    ensures i <= |pairs|
    ensures i < |pairs| ==> Lower(KeyText(pairs[i].0)) == low
    ensures forall j | 0 <= j < i :: Lower(KeyText(pairs[j].0)) != low
  {
    if pairs == [] || Lower(KeyText(pairs[0].0)) == low then 0 else 1 + FindSpelling(pairs[1..], low)
  }

  function Without(pairs: seq<Pair>, i: nat): seq<Pair>
    requires i < |pairs|
  {
    pairs[..i] + pairs[i + 1..]
  }

  datatype Merged = Merged(lines: seq<string>, left: seq<Pair>)

  /** One line of the section: replaced, dropped, blanked with the sentinel, or kept. */
  function MergeLine(line: string, m: Merged, owned: set<Slot>, clear: bool, nulls: bool): Merged {
    match EntryOf(line)
    case None => m.(lines := m.lines + [line])
    case Some(entry) =>
      if entry.key.slot in owned then
        var i := FindSpelling(m.left, Lower(entry.raw));
        if i == |m.left| then m
        else Merged(m.lines + [KeyLine(entry.raw, m.left[i].1)], Without(m.left, i))
      else if !clear then m.(lines := m.lines + [line])
      else if nulls && entry.key.field == Name then m.(lines := m.lines + [KeyLine(entry.raw, NULL)])
      else m
  }

  function Merge(body: seq<string>, wanted: seq<Pair>, owned: set<Slot>, clear: bool, nulls: bool): Merged {
    if body == [] then Merged([], wanted)
    else MergeLine(body[|body| - 1], Merge(body[..|body| - 1], wanted, owned, clear, nulls), owned, clear, nulls)
  }

  predicate IsBlank(line: string) { Strip(line) == "" }

  /** Where the stretch of lines that end the list and all hold starts. */
  function TailFrom(lines: seq<string>, holds: string -> bool): (n: nat)
    ensures n <= |lines|
    ensures forall i | n <= i < |lines| :: holds(lines[i])
    ensures n > 0 ==> !holds(lines[n - 1])
  {
    if lines != [] && holds(lines[|lines| - 1]) then TailFrom(lines[..|lines| - 1], holds) else |lines|
  }

  /** Where the blank lines that end `lines` start. */
  function BlankTail(lines: seq<string>): (n: nat)
    ensures n <= |lines|
    ensures forall i | n <= i < |lines| :: IsBlank(lines[i])
    ensures n > 0 ==> !IsBlank(lines[n - 1])
  {
    TailFrom(lines, IsBlank)
  }

  function Reverse(lines: seq<string>): (r: seq<string>)
    ensures |r| == |lines|
    ensures forall i | 0 <= i < |r| :: r[i] == lines[|lines| - 1 - i]
  {
    seq(|lines|, i requires 0 <= i < |lines| => lines[|lines| - 1 - i])
  }

  function PairLine(pair: Pair): string { KeyLine(KeyText(pair.0), pair.1) }

  function PairLines(pairs: seq<Pair>): seq<string> {
    if pairs == [] then [] else PairLines(pairs[..|pairs| - 1]) + [PairLine(pairs[|pairs| - 1])]
  }

  /** What is still wanted goes before the blank lines at the end, which come back reversed. */
  function Finish(m: Merged): seq<string> {
    var n := BlankTail(m.lines);
    m.lines[..n] + PairLines(m.left) + Reverse(m.lines[n..])
  }

  /** The socials a write settles on. */
  function Cleaned(body: seq<string>, socials: seq<Social>): map<Slot, Social> { BySlot(socials, Most(body)) }

  lemma CleanedIs(body: seq<string>, socials: seq<Social>)
    ensures var c := Cleaned(body, socials);
      Slotted(c) && AllClean(c, Most(body)) && Coloured(InOrder(c)) && Owned(InOrder(c)) == c.Keys
  {
    hide First, Most, IsEmpty, Trimmed;
    var c := Cleaned(body, socials);
    BySlotIsClean(socials, Most(body));
    InOrderMembers(c);
    forall slot | slot in c ensures slot in Owned(InOrder(c)) { assert c[slot] in InOrder(c); }
  }

  /** The section's lines with the socials written into them. */
  function WriteBody(body: seq<string>, socials: seq<Social>, clear: bool): seq<string> {
    CleanedIs(body, socials);
    var cleaned := Normalize(socials, Most(body));
    Finish(Merge(body, Desired(cleaned, Present(body)), Owned(cleaned), clear, UsesNull(body)))
  }
}
