/** The keys of the [Socials] section: Page<p>Button<b> followed by Name, Color or Line<n>. */
module SocialKeys {
  import opened Options
  import opened Text
  import opened EqIni

  type Slot = (nat, nat)

  datatype Field = Name | Color | Line(index: nat)

  datatype Key = Key(slot: Slot, field: Field)

  // -- reading a key ---------------------------------------------------------------------

  function Expect(literal: string, s: string): Option<string> {
    if literal <= s then Some(s[|literal|..]) else None
  }

  /** A run of digits and what follows it. */
  function Number(s: string): (r: Option<(nat, string)>)
  {
    var n := DigitRun(s);
    if n == 0 then None else Some((ParseDigits(s[..n]), s[n..]))
  }

  function ParseField(s: string): Option<Field> {
    if s == "name" then Some(Name)
    else if s == "color" then Some(Color)
    else match Expect("line", s)
      case None => None
      case Some(rest) =>
        if rest != "" && AllDigits(rest) then Some(Line(ParseDigits(rest))) else None
  }

  function ParseButton(page: nat, s: string): Option<Key> {
    match Expect("button", s)
    case None => None
    case Some(rest) => match Number(rest)
      case None => None
      case Some((button, tail)) => match ParseField(tail)
        case None => None
        case Some(field) => Some(Key((page, button), field))
  }

  /** The key a text spells, in any case; None for a key that is not a social's. */
  function ParseKey(text: string): Option<Key> {
    match Expect("page", Lower(text))
    case None => None
    case Some(rest) => match Number(rest)
      case None => None
      case Some((page, tail)) => ParseButton(page, tail)
  }

  // -- spelling a key --------------------------------------------------------------------

  function FieldText(field: Field): string {
    match field
    case Name => "Name"
    case Color => "Color"
    case Line(index) => "Line" + Decimal(index)
  }

  /** The canonical spelling. */
  function KeyText(key: Key): string {
    "Page" + (Decimal(key.slot.0) + ("Button" + (Decimal(key.slot.1) + FieldText(key.field))))
  }

  /** How a key is spelled once its case is folded. */
  function LowField(field: Field): string {
    match field
    case Name => "name"
    case Color => "color"
    case Line(index) => "line" + Decimal(index)
  }

  lemma LowFieldIs(field: Field)
    ensures Lower(FieldText(field)) == LowField(field)
  {
    match field
    case Name =>
    case Color =>
    case Line(index) =>
      LowerAppend("Line", Decimal(index));
      LowerDigits(Decimal(index));
      assert Lower("Line") == "line";
  }

  lemma LowKeyIs(key: Key)
    ensures Lower(KeyText(key)) ==
            "page" + (Decimal(key.slot.0) + ("button" + (Decimal(key.slot.1) + LowField(key.field))))
  {
    hide FieldText, LowField, Decimal, Lower;
    var p, b, f := Decimal(key.slot.0), Decimal(key.slot.1), FieldText(key.field);
    LowFieldIs(key.field);
    LowerDigits(p);
    LowerDigits(b);
    LowerAppend(b, f);
    LowerAppend("Button", b + f);
    LowerAppend(p, "Button" + (b + f));
    LowerAppend("Page", p + ("Button" + (b + f)));
    LowerWords();
  }

  lemma LowerWords()
    ensures Lower("Page") == "page" && Lower("Button") == "button"
  {}

  lemma ExpectJoined(literal: string, rest: string)
    ensures Expect(literal, literal + rest) == Some(rest)
  {}

  lemma NumberJoined(n: nat, rest: string)
    requires rest == "" || !IsDigit(rest[0])
    ensures Number(Decimal(n) + rest) == Some((n, rest))
  {
    hide Decimal, DigitRun, ParseDigits;
    var digits := Decimal(n);
    DigitRunIs(digits, rest);
    ParseDecimal(n);
    assert (digits + rest)[..|digits|] == digits && (digits + rest)[|digits|..] == rest;
  }

  lemma ParseLowField(field: Field)
    ensures ParseField(LowField(field)) == Some(field) && LowField(field) != "" && !IsDigit(LowField(field)[0])
  {
    hide Decimal, ParseDigits, Expect;
    match field
    case Name =>
    case Color =>
    case Line(index) =>
      ExpectJoined("line", Decimal(index));
      ParseDecimal(index);
      assert LowField(field)[0] == 'l';
  }

  /** Spelling a key and reading it back gives the key. */
  lemma ParseKeyText(key: Key)
    ensures ParseKey(KeyText(key)) == Some(key)
  {
    hide Expect, Number, Decimal, Lower, LowField, ParseField, KeyText, IsDigit;
    var f := LowField(key.field);
    var tail := Decimal(key.slot.1) + f;
    var rest := "button" + tail;
    LowKeyIs(key);
    ParseLowField(key.field);
    NumberJoined(key.slot.1, f);
    ExpectJoined("button", tail);
    assert !IsDigit(rest[0]) by { NotDigit(rest); }
    NumberJoined(key.slot.0, rest);
    ExpectJoined("page", Decimal(key.slot.0) + rest);
  }

  lemma NotDigit(s: string)
    requires s != "" && s[0] == 'b'
    ensures !IsDigit(s[0])
  {}

  /** No two keys share a spelling, and case does not matter. */
  lemma SpellingIsUnique(a: Key, text: string)
    requires Lower(text) == Lower(KeyText(a))
    ensures ParseKey(text) == Some(a)
  {
    hide Expect, Number, Lower, KeyText, ParseButton;
    ParseKeyText(a);
  }

  lemma KeyTextIsKey(key: Key)
    ensures IsKey(KeyText(key))
  {
    hide Decimal;
    var p, b, f := Decimal(key.slot.0), Decimal(key.slot.1), FieldText(key.field);
    var text := KeyText(key);
    assert forall c | c in p :: IsDigit(c);
    assert forall c | c in b :: IsDigit(c);
    assert forall c | c in f :: c in "NameColorLine" || IsDigit(c) by {
      if key.field.Line? { assert forall c | c in Decimal(key.field.index) :: IsDigit(c); }
    }
    assert text[0] == 'P' && text[|text| - 1] == f[|f| - 1] && text[|text| - 1] in f;
    forall i | 0 <= i < |text| ensures text[i] != '=' {
      assert text[i] in "Page" || text[i] in p || text[i] in "Button" || text[i] in b || text[i] in f;
    }
  }
}
