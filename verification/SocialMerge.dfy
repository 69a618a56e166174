/** What the merge does to the value of every key. */
module SocialMerge {
  import opened Options
  import opened Text
  import opened EqIni
  import opened SocialKeys
  import opened SocialLines
  import opened SocialWriter

  // -- lists of pairs --------------------------------------------------------------------------

  ghost function Lookup(pairs: seq<Pair>, key: Key): Option<string> {
    if pairs == [] then None
    else if pairs[|pairs| - 1].0 == key then Some(pairs[|pairs| - 1].1)
    else Lookup(pairs[..|pairs| - 1], key)
  }

  ghost predicate Distinct(pairs: seq<Pair>) {
    forall i, j | 0 <= i < j < |pairs| :: pairs[i].0 != pairs[j].0
  }

  ghost predicate AllTrimmed(pairs: seq<Pair>) {
    forall p | p in pairs :: Trimmed(p.1)
  }

  lemma {:induction false} LookupConcat(a: seq<Pair>, b: seq<Pair>, key: Key)
    ensures Lookup(a + b, key) == if Lookup(b, key).Some? then Lookup(b, key) else Lookup(a, key)
  {
    if b == [] {
      assert a + b == a;
    } else {
      LookupConcat(a, b[..|b| - 1], key);
      assert (a + b)[..|a + b| - 1] == a + b[..|b| - 1];
    }
  }

  lemma {:induction false} LookupFinds(pairs: seq<Pair>, key: Key)
    ensures Lookup(pairs, key).Some? <==> exists i | 0 <= i < |pairs| :: pairs[i].0 == key
  {
    if pairs != [] {
      var init := pairs[..|pairs| - 1];
      LookupFinds(init, key);
      assert forall i | 0 <= i < |init| :: init[i] == pairs[i];
    }
  }

  lemma LookupWithout(pairs: seq<Pair>, i: nat, key: Key)
    requires i < |pairs| && Distinct(pairs)
    ensures Lookup(pairs, pairs[i].0) == Some(pairs[i].1)
    ensures Lookup(Without(pairs, i), key) == if key == pairs[i].0 then None else Lookup(pairs, key)
  {
    hide Lookup;
    var a, p, b := pairs[..i], pairs[i], pairs[i + 1..];
    assert pairs == (a + [p]) + b;
    LookupOne(a, p, p.0);
    LookupOne(a, p, key);
    LookupConcat(a + [p], b, p.0);
    LookupConcat(a + [p], b, key);
    LookupConcat(a, b, key);
    LookupFinds(a, p.0);
    LookupFinds(b, p.0);
  }

  lemma LookupOne(a: seq<Pair>, p: Pair, key: Key)
    ensures Lookup(a + [p], key) == if p.0 == key then Some(p.1) else Lookup(a, key)
  {
    assert (a + [p])[..|a|] == a;
  }

  // -- one line ----------------------------------------------------------------------------------

  /** What a slot that is not written keeps of a key. */
  ghost function Untouched(body: seq<string>, key: Key, clear: bool, nulls: bool): Option<string> {
    if !clear then Value(body, key)
    else if nulls && key.field == Name && Value(body, key).Some? then Some(NULL)
    else None
  }

  /** What the merge has done to one key after `body`: a wanted value is still to be written
      or is what the lines say. */
  ghost predicate Tracks(body: seq<string>, wanted: seq<Pair>, owned: set<Slot>, clear: bool, nulls: bool,
          m: Merged, key: Key)
  {
    if key.slot in owned then
      || (Lookup(m.left, key) == Lookup(wanted, key) && Value(m.lines, key) == None)
      || (Lookup(m.left, key) == None && Value(m.lines, key) == Lookup(wanted, key))
    else Lookup(m.left, key) == Lookup(wanted, key) && Value(m.lines, key) == Untouched(body, key, clear, nulls)
  }

  ghost predicate Sound(m: Merged) {
    Distinct(m.left) && AllTrimmed(m.left) && NoHeaders(m.lines)
  }

  lemma NullIsTrimmed()
    ensures Trimmed(NULL)
  {}

  lemma SoundAfter(m: Merged, line: string)
    requires Sound(m) && !OpensSection(line)
    ensures Sound(m.(lines := m.lines + [line]))
  {
    hide OpensSection, Trimmed;
  }

  lemma SoundWithout(m: Merged, line: string, i: nat)
    requires Sound(m) && !OpensSection(line) && i < |m.left|
    ensures Sound(Merged(m.lines + [line], Without(m.left, i)))
  {
    hide OpensSection, Trimmed;
  }

  lemma MergeKeepsSound(line: string, m: Merged, owned: set<Slot>, clear: bool, nulls: bool)
    requires Sound(m) && !OpensSection(line)
    ensures Sound(MergeLine(line, m, owned, clear, nulls))
  {
    hide EntryOf, OpensSection, Trimmed, Sound, ParseKey, KeyText, Lower, IsKey, KeyLine;
    SoundAfter(m, line);
    if EntryOf(line).Some? {
      EntryIsKeyed(line);
      var entry := EntryOf(line).value;
      NullIsTrimmed();
      KeyLineEntry(entry.raw, entry.key, NULL);
      SoundAfter(m, KeyLine(entry.raw, NULL));
      var i := FindSpelling(m.left, Lower(entry.raw));
      if i < |m.left| {
        assert Trimmed(m.left[i].1) by { SoundTrims(m, i); }
        KeyLineEntry(entry.raw, entry.key, m.left[i].1);
        SoundWithout(m, KeyLine(entry.raw, m.left[i].1), i);
      }
    }
  }

  lemma SoundTrims(m: Merged, i: nat)
    requires Sound(m) && i < |m.left|
    ensures Trimmed(m.left[i].1) && Distinct(m.left)
  {
    hide Trimmed;
    assert m.left[i] in m.left;
  }

  /** A line that sets no social's key is kept, and says nothing about one. */
  lemma ForeignLineTracks(body: seq<string>, line: string, wanted: seq<Pair>, owned: set<Slot>, clear: bool,
          nulls: bool, m: Merged, key: Key)
    requires Tracks(body, wanted, owned, clear, nulls, m, key) && EntryOf(line).None?
    ensures Tracks(body + [line], wanted, owned, clear, nulls, MergeLine(line, m, owned, clear, nulls), key)
  {
    hide EntryOf, Lookup, Value;
    ValueAfter(body, line, key);
    ValueAfter(m.lines, line, key);
  }

  /** A key of a written slot is replaced by the value wanted under that spelling, or dropped. */
  lemma OwnedLineTracks(body: seq<string>, line: string, wanted: seq<Pair>, owned: set<Slot>, clear: bool,
          nulls: bool, m: Merged, key: Key)
    requires Tracks(body, wanted, owned, clear, nulls, m, key) && Sound(m)
    requires EntryOf(line).Some? && EntryOf(line).value.key.slot in owned
    ensures Tracks(body + [line], wanted, owned, clear, nulls, MergeLine(line, m, owned, clear, nulls), key)
  {
    hide EntryOf, Lookup, Value, Without, ParseKey, KeyText, Lower, KeyLine, Trimmed, Sound, IsKey;
    var entry := EntryOf(line).value;
    ValueAfter(body, line, key);
    var i := FindSpelling(m.left, Lower(entry.raw));
    if i < |m.left| {
      var (w, value) := m.left[i];
      EntryIsKeyed(line);
      SpellingIsUnique(w, entry.raw);
      SoundTrims(m, i);
      KeyLineEntry(entry.raw, w, value);
      ValueAfter(m.lines, KeyLine(entry.raw, value), key);
      LookupWithout(m.left, i, key);
    }
  }

  /** A key of another slot is kept, or cleared the way the file clears. */
  lemma OtherLineTracks(body: seq<string>, line: string, wanted: seq<Pair>, owned: set<Slot>, clear: bool,
          nulls: bool, m: Merged, key: Key)
    requires Tracks(body, wanted, owned, clear, nulls, m, key)
    requires EntryOf(line).Some? && EntryOf(line).value.key.slot !in owned
    ensures Tracks(body + [line], wanted, owned, clear, nulls, MergeLine(line, m, owned, clear, nulls), key)
  {
    hide EntryOf, Lookup, Value, ParseKey, KeyText, Lower, KeyLine, Trimmed, IsKey;
    var entry := EntryOf(line).value;
    ValueAfter(body, line, key);
    ValueAfter(m.lines, line, key);
    EntryIsKeyed(line);
    NullIsTrimmed();
    KeyLineEntry(entry.raw, entry.key, NULL);
    ValueAfter(m.lines, KeyLine(entry.raw, NULL), key);
  }

  /** The invariant of the merge loop. */
  lemma {:induction false} MergeTracks(body: seq<string>, wanted: seq<Pair>, owned: set<Slot>, clear: bool,
          nulls: bool, key: Key)
    requires Distinct(wanted) && AllTrimmed(wanted) && NoHeaders(body)
    ensures var m := Merge(body, wanted, owned, clear, nulls);
      Sound(m) && Tracks(body, wanted, owned, clear, nulls, m, key)
  {
    hide EntryOf, Lookup, MergeLine, AllTrimmed, Distinct, OpensSection;
    if body != [] {
      var init, line := body[..|body| - 1], body[|body| - 1];
      assert body == init + [line];
      MergeTracks(init, wanted, owned, clear, nulls, key);
      hide Tracks, Value, Sound;
      var m := Merge(init, wanted, owned, clear, nulls);
      MergeKeepsSound(line, m, owned, clear, nulls);
      if EntryOf(line).None? { ForeignLineTracks(init, line, wanted, owned, clear, nulls, m, key); }
      else if EntryOf(line).value.key.slot in owned {
        OwnedLineTracks(init, line, wanted, owned, clear, nulls, m, key);
      }
      else { OtherLineTracks(init, line, wanted, owned, clear, nulls, m, key); }
    }
  }

  // -- the whole section -----------------------------------------------------------------------------

  lemma {:induction false} PairLinesSet(pairs: seq<Pair>, key: Key)
    requires AllTrimmed(pairs)
    ensures Value(PairLines(pairs), key) == Lookup(pairs, key) && NoHeaders(PairLines(pairs))
  {
    hide EntryOf, OpensSection, Trimmed, KeyText, KeyLine, ParseKey, IsKey;
    if pairs != [] {
      var init, p := pairs[..|pairs| - 1], pairs[|pairs| - 1];
      PairLinesSet(init, key);
      assert p in pairs;
      KeyTextIsKey(p.0);
      ParseKeyText(p.0);
      KeyLineEntry(KeyText(p.0), p.0, p.1);
      ValueAfter(PairLines(init), PairLine(p), key);
    }
  }

  lemma BlanksSetNothing(lines: seq<string>, key: Key)
    requires forall i | 0 <= i < |lines| :: IsBlank(lines[i])
    ensures Value(lines, key) == None && NoHeaders(lines)
  {
    hide EntryOf, OpensSection, Strip, Value;
    forall line | line in lines ensures EntryOf(line).None? && !OpensSection(line) {
      BlankHasNoEntry(line);
    }
    NoEntryNoValue(lines, key);
  }

  lemma FinishSets(m: Merged, key: Key)
    requires Sound(m)
    ensures Value(Finish(m), key) == if Lookup(m.left, key).Some? then Lookup(m.left, key) else Value(m.lines, key)
    ensures NoHeaders(Finish(m))
  {
    hide EntryOf, OpensSection, IsBlank, Value, Lookup, Trimmed, Distinct;
    var n := BlankTail(m.lines);
    var head, tail, added := m.lines[..n], m.lines[n..], PairLines(m.left);
    PairLinesSet(m.left, key);
    BlanksSetNothing(tail, key);
    BlanksSetNothing(Reverse(tail), key);
    assert m.lines == head + tail;
    ValueConcat(head, tail, key);
    ValueConcat(head, added, key);
    ValueConcat(head + added, Reverse(tail), key);
    assert forall line | line in head :: line in m.lines;
  }
}
