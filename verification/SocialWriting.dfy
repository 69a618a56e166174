/** What a write leaves in the section: the value of every key, and every line. */
module SocialWriting {
  import opened Options
  import opened Text
  import opened EqIni
  import opened SocialKeys
  import opened SocialValues
  import opened SocialLines
  import opened SocialWriter
  import opened SocialMerge
  import opened SocialRoundTrip
  import opened SocialReading

  // -- what a write looks for in the section -----------------------------------------------------

  /** Some line sets a social's key to the sentinel, in any case. */
  ghost predicate PadsWithNull(body: seq<string>) { exists i :: NullAt(body, i) }

  predicate NullAt(body: seq<string>, i: int) {
    0 <= i < |body| && EntryOf(body[i]).Some? && Lower(EntryOf(body[i]).value.value) == "*null*"
  }

  /** Some line sets the key in its canonical spelling, in any case. */
  ghost predicate Carries(body: seq<string>, key: Key) { exists i :: CarriesAt(body, i, key) }

  predicate CarriesAt(body: seq<string>, i: int, key: Key) {
    0 <= i < |body| && EntryOf(body[i]).Some? && Lower(EntryOf(body[i]).value.raw) == Lower(KeyText(key))
  }

  lemma {:induction false} UsesNullIs(body: seq<string>)
    ensures UsesNull(body) <==> PadsWithNull(body)
  {
    hide EntryOf;
    if body != [] {
      var n := |body| - 1;
      UsesNullIs(body[..n]);
      assert Lower(NULL) == "*null*";
      assert forall i | 0 <= i < n :: body[..n][i] == body[i];
      assert forall i | i < n :: NullAt(body[..n], i) <==> NullAt(body, i);
      assert UsesNull(body) <==> UsesNull(body[..n]) || NullAt(body, n);
      if PadsWithNull(body) {
        var i :| NullAt(body, i);
        if i < n { assert NullAt(body[..n], i); }
      }
    }
  }

  lemma {:induction false} PresentIs(body: seq<string>, key: Key)
    ensures Lower(KeyText(key)) in Present(body) <==> Carries(body, key)
  {
    hide EntryOf, Lower, KeyText;
    if body != [] {
      var n := |body| - 1;
      PresentIs(body[..n], key);
      assert forall i | 0 <= i < n :: body[..n][i] == body[i];
      assert forall i | i < n :: CarriesAt(body[..n], i, key) <==> CarriesAt(body, i, key);
      if CarriesAt(body, n, key) {
        assert Carries(body, key);
      } else if Carries(body, key) {
        var i :| CarriesAt(body, i, key);
        assert CarriesAt(body[..n], i, key);
      }
    }
  }

  // -- the value of every key ------------------------------------------------------------------------

  /** What a social says for a key of its slot: a name or colour that says nothing is written
      only where the section carries that key already. */
  ghost function Said(body: seq<string>, s: Social, field: Field): Option<string>
    requires 0 <= s.color
  {
    match field
    case Name => if s.name != "" || Carries(body, Key(s.slot, Name)) then Some(s.name) else None
    case Color => if s.color != 13 || Carries(body, Key(s.slot, Color)) then Some(Decimal(s.color)) else None
    case Line(n) => if 1 <= n <= |s.lines| then Some(s.lines[n - 1]) else None
  }

  lemma WrittenSaid(body: seq<string>, s: Social, field: Field)
    requires 0 <= s.color
    ensures Written(s, Present(body), field) == Said(body, s, field)
  {
    hide Present, Carries;
    PresentIs(body, Key(s.slot, Name));
    PresentIs(body, Key(s.slot, Color));
  }

  /** After a write, the keys of a slot that was written say what its social says. The keys of
      any other slot are as they were; unless the rest is cleared: then they are gone, except
      that in a section that pads with the sentinel a name stays, and is the sentinel. */
  lemma WritesEveryKey(body: seq<string>, socials: seq<Social>, clear: bool, key: Key)
    requires NoHeaders(body)
    ensures var c := BySlot(socials, Most(body));
      var after := Value(WriteBody(body, socials, clear), key);
      && (key.slot in c ==>
            0 <= c[key.slot].color && c[key.slot].slot == key.slot && after == Said(body, c[key.slot], key.field))
      && (key.slot !in c && !clear ==> after == Value(body, key))
      && (key.slot !in c && clear ==>
            after == if PadsWithNull(body) && key.field == Name && Sets(body, key) then Some("*NULL*") else None)
  {
    hide WriteBody, Written, Present, BySlot, Said, UsesNull, PadsWithNull, Most, Sets;
    WriteSets(body, socials, clear, key);
    BySlotIsClean(socials, Most(body));
    UsesNullIs(body);
    LastLineWins(body, key, "");
    var c := BySlot(socials, Most(body));
    if key.slot in c { WrittenSaid(body, c[key.slot], key.field); }
  }

  // -- the order of new keys ---------------------------------------------------------------------------

  function Rank(field: Field): nat {
    match field case Name => 0 case Color => 1 case Line(n) => 2 + n
  }

  /** Slot by slot, and in a slot the name, the colour and then the lines by number. */
  predicate KeyBefore(a: Key, b: Key) { Before(a.slot, b.slot) || (a.slot == b.slot && Rank(a.field) < Rank(b.field)) }

  ghost predicate KeysRise(pairs: seq<Pair>) { forall i, j | 0 <= i < j < |pairs| :: KeyBefore(pairs[i].0, pairs[j].0) }

  lemma SlotKeysRise(s: Social, present: set<string>)
    requires 0 <= s.color
    ensures KeysRise(SlotKeys(s, present)) && forall p | p in SlotKeys(s, present) :: p.0.slot == s.slot
  {
    hide Spelled, Decimal, Before;
    LineKeysAre(s.slot, s.lines);
    assert forall i | 0 <= i < |s.lines| :: LineKeys(s.slot, s.lines)[i].0 == Key(s.slot, Line(i + 1));
  }

  lemma RiseOn(a: seq<Pair>, b: seq<Pair>)
    requires KeysRise(a) && KeysRise(b) && forall p, q | p in a && q in b :: KeyBefore(p.0, q.0)
    ensures KeysRise(a + b)
  {
    hide KeyBefore;
    var all := a + b;
    forall i, j | 0 <= i < j < |all| ensures KeyBefore(all[i].0, all[j].0) {
      if i < |a| <= j { assert a[i] in a && b[j - |a|] in b; }
    }
  }

  lemma {:induction false} DesiredRises(socials: seq<Social>, present: set<string>)
    requires Coloured(socials) && Ascending(socials)
    ensures KeysRise(Desired(socials, present))
    ensures forall p | p in Desired(socials, present) :: exists s | s in socials :: s.slot == p.0.slot
  {
    hide SlotKeys, Before;
    if socials != [] {
      var init, last := socials[..|socials| - 1], socials[|socials| - 1];
      assert forall s | s in init :: s in socials;
      DesiredRises(init, present);
      SlotKeysRise(last, present);
      var a, b := Desired(init, present), SlotKeys(last, present);
      forall p, q | p in a && q in b ensures KeyBefore(p.0, q.0) {
        var s :| s in init && s.slot == p.0.slot;
        assert Before(s.slot, last.slot);
      }
      hide KeyBefore;
      RiseOn(a, b);
      assert last in socials;
    }
  }

  // -- what is still to be written ------------------------------------------------------------------------

  /** One of the first `n` lines carries the key. */
  ghost predicate CarriedBefore(body: seq<string>, n: nat, key: Key) {
    exists i :: i < n && CarriesAt(body, i, key)
  }

  ghost function Pending(wanted: seq<Pair>, body: seq<string>, n: nat): seq<Pair> {
    if wanted == [] then []
    else
      var last := wanted[|wanted| - 1];
      Pending(wanted[..|wanted| - 1], body, n) + if CarriedBefore(body, n, last.0) then [] else [last]
  }

  lemma PendingLast(wanted: seq<Pair>, body: seq<string>, n: nat)
    requires wanted != []
    ensures var last := wanted[|wanted| - 1];
      Pending(wanted, body, n) ==
        Pending(wanted[..|wanted| - 1], body, n) + if CarriedBefore(body, n, last.0) then [] else [last]
  {}

  lemma {:induction false} PendingIs(wanted: seq<Pair>, body: seq<string>, n: nat)
    ensures forall p :: p in Pending(wanted, body, n) <==> p in wanted && !CarriedBefore(body, n, p.0)
  {
    hide CarriedBefore;
    if wanted != [] {
      var init, last := wanted[..|wanted| - 1], wanted[|wanted| - 1];
      PendingIs(init, body, n);
      assert forall p :: p in wanted <==> p in init || p == last;
    }
  }

  lemma {:induction false} PendingRises(wanted: seq<Pair>, body: seq<string>, n: nat)
    requires KeysRise(wanted)
    ensures KeysRise(Pending(wanted, body, n))
  {
    hide CarriedBefore, KeyBefore;
    if wanted != [] {
      var init, last := wanted[..|wanted| - 1], wanted[|wanted| - 1];
      PendingRises(init, body, n);
      PendingIs(init, body, n);
      var rest := Pending(init, body, n);
      forall i | 0 <= i < |rest| ensures KeyBefore(rest[i].0, last.0) {
        assert rest[i] in rest;
        var k :| 0 <= k < |init| && init[k] == rest[i];
        assert wanted[k] == init[k];
      }
    }
  }

  lemma {:induction false} PendingStays(wanted: seq<Pair>, body: seq<string>, n: nat)
    requires forall p | p in Pending(wanted, body, n) :: !CarriesAt(body, n, p.0)
    ensures Pending(wanted, body, n + 1) == Pending(wanted, body, n)
  {
    if wanted != [] {
      var init, last := wanted[..|wanted| - 1], wanted[|wanted| - 1];
      CarriedNext(body, n, last.0);
      hide CarriedBefore, CarriesAt;
      PendingStays(init, body, n);
      assert !CarriedBefore(body, n, last.0) ==> last in Pending(wanted, body, n);
    }
  }

  lemma CarriedNext(body: seq<string>, n: nat, key: Key)
    ensures CarriedBefore(body, n + 1, key) <==> CarriedBefore(body, n, key) || CarriesAt(body, n, key)
  {
    hide CarriesAt;
    if CarriesAt(body, n, key) { assert n < n + 1 && CarriesAt(body, n, key); }
    if CarriedBefore(body, n, key) {
      var i :| i < n && CarriesAt(body, i, key);
      assert i < n + 1 && CarriesAt(body, i, key);
    }
  }

  /** A line that carries the key of one pending pair takes that pair out. */
  lemma {:induction false} PendingDrops(wanted: seq<Pair>, body: seq<string>, n: nat, i: nat)
    requires Distinct(wanted) && i < |Pending(wanted, body, n)|
    requires forall p | p in wanted :: CarriesAt(body, n, p.0) <==> p.0 == Pending(wanted, body, n)[i].0
    ensures Pending(wanted, body, n + 1) == Without(Pending(wanted, body, n), i)
  {
    var init, last := wanted[..|wanted| - 1], wanted[|wanted| - 1];
    var all, rest := Pending(wanted, body, n), Pending(init, body, n);
    CarriedNext(body, n, last.0);
    PendingLast(wanted, body, n);
    PendingLast(wanted, body, n + 1);
    PendingIs(init, body, n);
    InitDiffers(wanted);
    hide Pending, CarriedBefore, CarriesAt, Distinct, Without;
    if i < |rest| {
      assert rest[i] == all[i] && rest[i] in rest;
      PendingDrops(init, body, n, i);
      WithoutAppend(rest, if CarriedBefore(body, n, last.0) then [] else [last], i);
    } else {
      assert all == rest + [last] && all[i] == last;
      PendingStays(init, body, n);
      WithoutLast(rest, last);
    }
  }

  lemma WithoutLast(a: seq<Pair>, p: Pair)
    ensures Without(a + [p], |a|) == a
  {}

  lemma InitDiffers(wanted: seq<Pair>)
    requires wanted != [] && Distinct(wanted)
    ensures var init, last := wanted[..|wanted| - 1], wanted[|wanted| - 1];
      last in wanted && Distinct(init) && forall p | p in init :: p in wanted && p.0 != last.0
  {}

  lemma WithoutAppend(a: seq<Pair>, b: seq<Pair>, i: nat)
    requires i < |a|
    ensures Without(a + b, i) == Without(a, i) + b
  {}

  // -- every line ----------------------------------------------------------------------------------------------

  ghost predicate Colours(c: map<Slot, Social>) {
    forall slot | slot in c :: 0 <= c[slot].color && c[slot].slot == slot
  }

  /** What becomes of line `i`. A line that sets no social's key stays. The first line that
      carries a key of a written slot takes what its social says, in the line's own spelling;
      any other line of that slot goes. A line of another slot stays, unless the rest is
      cleared: then it goes, or, if it is a name in a section that pads with the sentinel,
      takes the sentinel. */
  ghost function Fate(body: seq<string>, i: nat, c: map<Slot, Social>, clear: bool): seq<string>
    requires i < |body| && Colours(c)
  {
    match EntryOf(body[i])
    case None => [body[i]]
    case Some(Entry(raw, key, _)) =>
      if key.slot in c then
        var said := Said(body, c[key.slot], key.field);
        if said.Some? && CarriesAt(body, i, key) && !CarriedBefore(body, i, key) then [raw + "=" + said.value] else []
      else if !clear then [body[i]]
      else if PadsWithNull(body) && key.field == Name then [raw + "=" + "*NULL*"]
      else []
  }

  ghost function Fates(body: seq<string>, n: nat, c: map<Slot, Social>, clear: bool): seq<string>
    requires n <= |body| && Colours(c)
  {
    if n == 0 then [] else Fates(body, n - 1, c, clear) + Fate(body, n - 1, c, clear)
  }

  /** The wanted pairs are what the socials say. */
  ghost predicate Wants(body: seq<string>, c: map<Slot, Social>, wanted: seq<Pair>)
    requires Colours(c)
  {
    && Distinct(wanted)
    && forall p :: p in wanted <==> p.0.slot in c && Said(body, c[p.0.slot], p.0.field) == Some(p.1)
  }

  /** A line carries a wanted key exactly when it is a line of that key in its canonical spelling. */
  lemma CarriesItsKey(body: seq<string>, n: nat, key: Key)
    requires n < |body| && CarriesAt(body, n, key)
    ensures EntryOf(body[n]).value.key == key
  {
    hide SplitKeyValue, ParseKey, Lower, KeyText, Trimmed;
    EntryIsKeyed(body[n]);
    SpellingIsUnique(key, EntryOf(body[n]).value.raw);
  }

  /** One line of the merge against its fate. */
  lemma MergeLineFate(body: seq<string>, n: nat, c: map<Slot, Social>, clear: bool, wanted: seq<Pair>, m: Merged)
    requires n < |body| && Colours(c) && Wants(body, c, wanted) && m.left == Pending(wanted, body, n)
    ensures MergeLine(body[n], m, c.Keys, clear, PadsWithNull(body)) ==
      Merged(m.lines + Fate(body, n, c, clear), Pending(wanted, body, n + 1))
  {
    hide Lower, KeyText, Said, PadsWithNull, EntryOf, Without;
    PendingIs(wanted, body, n);
    forall p | p in wanted && CarriesAt(body, n, p.0)
      ensures EntryOf(body[n]).value.key == p.0
    {
      CarriesItsKey(body, n, p.0);
    }
    if EntryOf(body[n]).Some? && EntryOf(body[n]).value.key.slot in c {
      OwnedFate(body, n, c, clear, wanted, m);
    } else {
      assert EntryOf(body[n]).Some? ==> EntryOf(body[n]).value.key.slot !in c;
      PendingStays(wanted, body, n);
      assert m.lines + [] == m.lines;
    }
  }

  lemma OwnedFate(body: seq<string>, n: nat, c: map<Slot, Social>, clear: bool, wanted: seq<Pair>, m: Merged)
    requires n < |body| && Colours(c) && Wants(body, c, wanted) && m.left == Pending(wanted, body, n)
    requires EntryOf(body[n]).Some? && EntryOf(body[n]).value.key.slot in c
    requires forall p | p in wanted && CarriesAt(body, n, p.0) :: EntryOf(body[n]).value.key == p.0
    ensures MergeLine(body[n], m, c.Keys, clear, PadsWithNull(body)) ==
      Merged(m.lines + Fate(body, n, c, clear), Pending(wanted, body, n + 1))
  {
    hide Lower, KeyText, Said, PadsWithNull, EntryOf, Without, CarriedBefore;
    var entry := EntryOf(body[n]).value;
    var said := Said(body, c[entry.key.slot], entry.key.field);
    var i := FindSpelling(m.left, Lower(entry.raw));
    PendingIs(wanted, body, n);
    if i < |m.left| {
      var p := m.left[i];
      assert p in m.left && CarriesAt(body, n, p.0);
      assert said == Some(p.1);
      PendingDrops(wanted, body, n, i);
    } else {
      forall p | p in m.left ensures !CarriesAt(body, n, p.0) {
        var k :| 0 <= k < |m.left| && m.left[k] == p;
      }
      PendingStays(wanted, body, n);
      if said.Some? {
        var p := (entry.key, said.value);
        assert p in wanted;
        assert p in m.left ==> !CarriesAt(body, n, p.0);
      }
      assert m.lines + Fate(body, n, c, clear) == m.lines;
    }
  }

  lemma {:induction false} MergeIsFates(body: seq<string>, n: nat, c: map<Slot, Social>, clear: bool, wanted: seq<Pair>)
    requires n <= |body| && Colours(c) && Wants(body, c, wanted)
    ensures Merge(body[..n], wanted, c.Keys, clear, PadsWithNull(body)) ==
      Merged(Fates(body, n, c, clear), Pending(wanted, body, n))
  {
    hide MergeLine, Fate, Wants, PadsWithNull;
    if n == 0 {
      NothingPendingYet(wanted, body);
    } else {
      MergeIsFates(body, n - 1, c, clear, wanted);
      assert body[..n][..n - 1] == body[..n - 1];
      MergeLineFate(body, n - 1, c, clear, wanted, Merge(body[..n - 1], wanted, c.Keys, clear, PadsWithNull(body)));
    }
  }

  lemma {:induction false} NothingPendingYet(wanted: seq<Pair>, body: seq<string>)
    ensures Pending(wanted, body, 0) == wanted
  {
    if wanted != [] {
      NothingPendingYet(wanted[..|wanted| - 1], body);
      assert wanted == wanted[..|wanted| - 1] + [wanted[|wanted| - 1]];
    }
  }

  lemma DesiredWants(body: seq<string>, socials: seq<Social>)
    ensures var c := BySlot(socials, Most(body));
      && Colours(c) && Coloured(InOrder(c))
      && Wants(body, c, Desired(InOrder(c), Present(body))) && KeysRise(Desired(InOrder(c), Present(body)))
  {
    hide BySlot, InOrder, Desired, Present, Most, IsClean, Said, Written, Before, Lookup;
    var c := BySlot(socials, Most(body));
    BySlotIsClean(socials, Most(body));
    CleanedIs(body, socials);
    InOrderMembers(c);
    InOrderAscends(c);
    var cleaned := InOrder(c);
    AscendingIsOneEach(cleaned);
    DesiredRises(cleaned, Present(body));
    var wanted := Desired(cleaned, Present(body));
    DesiredSays(cleaned, Present(body), Key((0, 0), Name));
    forall p ensures p in wanted <==> p.0.slot in c && Said(body, c[p.0.slot], p.0.field) == Some(p.1) {
      DesiredSays(cleaned, Present(body), p.0);
      LookupIsIn(wanted, p);
      if p.0.slot in c {
        assert c[p.0.slot] in cleaned;
        WrittenSaid(body, c[p.0.slot], p.0.field);
      }
    }
  }

  lemma {:induction false} LookupIsIn(pairs: seq<Pair>, p: Pair)
    requires Distinct(pairs)
    ensures p in pairs <==> Lookup(pairs, p.0) == Some(p.1)
  {
    if pairs != [] {
      var init, last := pairs[..|pairs| - 1], pairs[|pairs| - 1];
      LookupIsIn(init, p);
      assert forall q :: q in pairs <==> q in init || q == last;
      assert forall k | 0 <= k < |init| :: init[k].0 != last.0;
    }
  }

  /** The lines of new keys. */
  ghost predicate NewLines(added: seq<Pair>, lines: seq<string>) {
    |lines| == |added| && forall k | 0 <= k < |added| :: lines[k] == KeyText(added[k].0) + "=" + added[k].1
  }

  lemma {:induction false} PairLinesAre(pairs: seq<Pair>)
    ensures NewLines(pairs, PairLines(pairs))
  {
    hide KeyText;
    if pairs != [] { PairLinesAre(pairs[..|pairs| - 1]); }
  }

  /** What a write makes of the section: every line meets its fate, in place; what the socials
      say that no line carries follows, by slot and key, in canonical spelling; and blank lines
      that come to stand at the end stay there, reversed. */
  lemma WritesEveryLine(body: seq<string>, socials: seq<Social>, clear: bool)
    returns (kept: seq<string>, blanks: seq<string>, added: seq<Pair>, lines: seq<string>)
    ensures var c := BySlot(socials, Most(body));
      && Colours(c) && Fates(body, |body|, c, clear) == kept + blanks
      && WriteBody(body, socials, clear) == kept + lines + Reverse(blanks)
      && (forall p :: p in added <==>
            p.0.slot in c && !Carries(body, p.0) && Said(body, c[p.0.slot], p.0.field) == Some(p.1))
    ensures KeysRise(added) && NewLines(added, lines)
    ensures (forall line | line in blanks :: Strip(line) == "") && (kept != [] ==> Strip(kept[|kept| - 1]) != "")
  {
    hide BySlot, InOrder, Most, Desired, Present, Said, Fates, PadsWithNull, UsesNull, Pending, KeyBefore, PairLines,
      KeyText, Strip, Merge;
    var c := BySlot(socials, Most(body));
    CleanedIs(body, socials);
    InOrderKeys(c);
    DesiredWants(body, socials);
    UsesNullIs(body);
    var wanted := Desired(InOrder(c), Present(body));
    assert body[..|body|] == body;
    MergeIsFates(body, |body|, c, clear, wanted);
    PendingIs(wanted, body, |body|);
    PendingRises(wanted, body, |body|);
    var m := Merged(Fates(body, |body|, c, clear), Pending(wanted, body, |body|));
    var n := BlankTail(m.lines);
    kept, blanks, added, lines := m.lines[..n], m.lines[n..], m.left, PairLines(m.left);
    PairLinesAre(m.left);
    forall key ensures CarriedBefore(body, |body|, key) <==> Carries(body, key) { CarriedAll(body, key); }
    hide CarriedBefore, Carries;
    assert WriteBody(body, socials, clear) == Finish(m);
  }

  lemma CarriedAll(body: seq<string>, key: Key)
    ensures CarriedBefore(body, |body|, key) <==> Carries(body, key)
  {}

  lemma InOrderKeys(c: map<Slot, Social>)
    ensures Slotted(c) ==> Owned(InOrder(c)) == c.Keys
  {
    hide InOrder;
    if Slotted(c) {
      InOrderMembers(c);
      forall slot | slot in c ensures slot in Owned(InOrder(c)) { assert c[slot] in InOrder(c); }
    }
  }
}
