/** Socials as values: cleaning one, and normalising a list of them into slot order. */
module SocialValues {
  import opened Text
  import opened SocialKeys

  const MAX_LINES := 5
  const DEFAULT_COLOR := 13
  const MAX_COLOR := 255

  datatype Social = Social(slot: Slot, name: string, color: int, lines: seq<string>)

  function StripAll(lines: seq<string>): seq<string> {
    seq(|lines|, i requires 0 <= i < |lines| => Strip(lines[i]))
  }

  function DropBlanks(lines: seq<string>): (r: seq<string>)
    ensures r <= lines
    ensures r != [] ==> r[|r| - 1] != ""
    ensures forall i | |r| <= i < |lines| :: lines[i] == ""
  {
    if lines != [] && lines[|lines| - 1] == "" then DropBlanks(lines[..|lines| - 1]) else lines
  }

  function Cut(lines: seq<string>, most: nat): seq<string> {
    if |lines| <= most then lines else lines[..most]
  }

  function Clamp(color: int): (r: int)
    ensures 0 <= r <= MAX_COLOR
    ensures 0 <= color <= MAX_COLOR ==> r == color
  {
    if color < 0 then 0 else if color > MAX_COLOR then MAX_COLOR else color
  }

  function Clean(s: Social, most: nat): Social {
    Social(s.slot, Strip(s.name), Clamp(s.color), Cut(DropBlanks(StripAll(s.lines)), most))
  }

  predicate IsEmpty(s: Social) {
    Strip(s.name) == "" && forall i | 0 <= i < |s.lines| :: Strip(s.lines[i]) == ""
  }

  /** What cleaning leaves: trimmed text, a colour the client knows, something to show. */
  ghost predicate IsClean(s: Social, most: nat) {
    && Trimmed(s.name) && 0 <= s.color <= MAX_COLOR && |s.lines| <= most
    && (forall i | 0 <= i < |s.lines| :: Trimmed(s.lines[i]))
    && !IsEmpty(s)
  }

  lemma CleanIsClean(s: Social, most: nat)
    requires !IsEmpty(Clean(s, most))
    ensures IsClean(Clean(s, most), most)
  {
    hide Strip, IsEmpty;
  }

  /** Cleaning only cuts what follows a blank line it exposes: with nothing to cut, a social
      that does not end in a blank is left as it is. */
  lemma CleanAgain(s: Social, most: nat)
    requires IsClean(s, most)
    ensures Clean(s, most) == s.(lines := DropBlanks(s.lines))
  {
    hide Strip, IsEmpty, Trimmed, DropBlanks;
    StripTrimmed(s.name);
    forall i | 0 <= i < |s.lines| ensures Strip(s.lines[i]) == s.lines[i] { StripTrimmed(s.lines[i]); }
    assert StripAll(s.lines) == s.lines;
  }

  /** A cut can leave a blank last line, so normalising is not idempotent. */
  lemma CleaningTwiceDiffers()
    ensures var s := Social((1, 1), "n", DEFAULT_COLOR, ["", "/b"]);
      Clean(s, 1).lines == [""] && Clean(Clean(s, 1), 1).lines == []
  {
    hide Strip;
    var s := Social((1, 1), "n", DEFAULT_COLOR, ["", "/b"]);
    StripTrimmed("");
    StripTrimmed("/b");
    assert StripAll(s.lines) == ["", "/b"] && StripAll([""]) == [""];
    assert DropBlanks(["", "/b"]) == ["", "/b"] && DropBlanks([""]) == [];
  }

  lemma CutsAlike(lines: seq<string>, less: nat, more: nat)
    requires less <= more
    ensures Cut(lines, less) == Cut(lines, more) <==> |lines| <= less || less == more
    ensures Cut(lines, less) <= Cut(lines, more)
  {}

  lemma LessIsEmptier(s: Social, less: nat, more: nat)
    requires less <= more && IsEmpty(Clean(s, more))
    ensures IsEmpty(Clean(s, less))
  {
    hide Strip, StripAll, DropBlanks;
    CutsAlike(DropBlanks(StripAll(s.lines)), less, more);
  }

  // -- one social a slot, in slot order ---------------------------------------------------

  predicate Before(a: Slot, b: Slot) {
    a.0 < b.0 || (a.0 == b.0 && a.1 < b.1)
  }

  /** Each slot's last social that is not empty once cleaned. */
  function BySlot(socials: seq<Social>, most: nat): map<Slot, Social> {
    if socials == [] then map[]
    else
      var earlier := BySlot(socials[..|socials| - 1], most);
      var s := Clean(socials[|socials| - 1], most);
      if IsEmpty(s) then earlier else earlier[s.slot := s]
  }

  ghost predicate Slotted(m: map<Slot, Social>) {
    forall slot | slot in m :: m[slot].slot == slot
  }

  ghost predicate AllClean(m: map<Slot, Social>, most: nat) {
    forall slot | slot in m :: IsClean(m[slot], most)
  }

  lemma {:induction false} BySlotIsClean(socials: seq<Social>, most: nat)
    ensures Slotted(BySlot(socials, most)) && AllClean(BySlot(socials, most), most)
  {
    hide IsClean, IsEmpty;
    if socials != [] {
      BySlotIsClean(socials[..|socials| - 1], most);
      var s := socials[|socials| - 1];
      if !IsEmpty(Clean(s, most)) { CleanIsClean(s, most); }
    }
  }

  ghost predicate IsFirst(s: Slot, slots: set<Slot>) {
    s in slots && forall t | t in slots :: s == t || Before(s, t)
  }

  lemma {:induction false} FindFirst(slots: set<Slot>) returns (first: Slot)
    requires slots != {}
    ensures IsFirst(first, slots)
  {
    var s :| s in slots;
    first := s;
    if slots == {s} {
    } else {
      assert slots == {s} + (slots - {s});
      var t := FindFirst(slots - {s});
      if !Before(s, t) { first := t; }
      forall u | u in slots ensures first == u || Before(first, u) {
        if u != s { assert u in slots - {s}; }
      }
    }
  }

  lemma FirstExists(slots: set<Slot>)
    requires slots != {}
    ensures exists s | s in slots :: forall t | t in slots :: s == t || Before(s, t)
  {
    var s := FindFirst(slots);
    assert s in slots && forall t | t in slots :: s == t || Before(s, t);
  }

  function First(slots: set<Slot>): (s: Slot)
    requires slots != {}
    ensures s in slots && forall t | t in slots :: s == t || Before(s, t)
  {
    FirstExists(slots);
    var s :| s in slots && forall t | t in slots :: s == t || Before(s, t);
    s
  }

  /** The socials of a slot table in slot order. */
  function InOrder(m: map<Slot, Social>): seq<Social>
    decreases |m|
  {
    if m == map[] then [] else
      var s := First(m.Keys);
      assert |(m - {s}).Keys| < |m.Keys|;
      [m[s]] + InOrder(m - {s})
  }

  ghost predicate Ascending(socials: seq<Social>) {
    forall i, j | 0 <= i < j < |socials| :: Before(socials[i].slot, socials[j].slot)
  }

  /** Slot order lists every social of the table, each under its slot. */
  lemma {:induction false} InOrderMembers(m: map<Slot, Social>)
    requires Slotted(m)
    ensures forall s | s in InOrder(m) :: s.slot in m && m[s.slot] == s
    ensures forall slot | slot in m :: m[slot] in InOrder(m)
    decreases |m|
  {
    hide First;
    if m != map[] {
      var first := First(m.Keys);
      var rest := m - {first};
      assert |rest.Keys| < |m.Keys|;
      InOrderMembers(rest);
      assert InOrder(m) == [m[first]] + InOrder(rest);
      forall slot | slot in m ensures m[slot] in InOrder(m) {
        if slot != first { assert rest[slot] in InOrder(rest); }
      }
    }
  }

  lemma {:induction false} InOrderAscends(m: map<Slot, Social>)
    requires Slotted(m)
    ensures Ascending(InOrder(m))
    decreases |m|
  {
    hide Before;
    if m != map[] {
      var first := First(m.Keys);
      var rest := m - {first};
      assert |rest.Keys| < |m.Keys|;
      InOrderAscends(rest);
      InOrderMembers(rest);
      var tail := InOrder(rest);
      assert InOrder(m) == [m[first]] + tail;
      forall j | 0 <= j < |tail| ensures Before(first, tail[j].slot) { assert tail[j] in tail; }
    }
  }

  ghost predicate OneEach(socials: seq<Social>) {
    forall i, j | 0 <= i < j < |socials| :: socials[i].slot != socials[j].slot
  }

  lemma AscendingIsOneEach(socials: seq<Social>)
    requires Ascending(socials)
    ensures OneEach(socials)
  {}

  lemma {:induction false} InOrderInjective(a: map<Slot, Social>, b: map<Slot, Social>)
    requires Slotted(a) && Slotted(b)
    ensures InOrder(a) == InOrder(b) <==> a == b
  {
    if InOrder(a) == InOrder(b) {
      InOrderMembers(a);
      InOrderMembers(b);
      forall slot | slot in a ensures slot in b && a[slot] == b[slot] { assert a[slot] in InOrder(b); }
      forall slot | slot in b ensures slot in a { assert b[slot] in InOrder(a); }
    }
  }

  function Normalize(socials: seq<Social>, most: nat): seq<Social> { InOrder(BySlot(socials, most)) }

  method NormalizeSocials(socials: seq<Social>, most: nat) returns (sorted: seq<Social>)
    ensures sorted == Normalize(socials, most)
  {
    hide IsEmpty, Clean;
    var bySlot := map[];
    for n := 0 to |socials|
      invariant bySlot == BySlot(socials[..n], most)
    {
      assert socials[..n + 1][..n] == socials[..n];
      var cleaned := Clean(socials[n], most);
      if !IsEmpty(cleaned) { bySlot := bySlot[cleaned.slot := cleaned]; }
    }
    assert socials[..|socials|] == socials;
    sorted := InOrder(bySlot);
  }
}
