/** What a line of an ini file and the name of a social's key have to look like. */
module LineGrammar {
  import opened Options
  import opened Text
  import opened EqIni
  import opened SocialKeys

  // -- blanks ------------------------------------------------------------------------------

  /** Stripping takes blanks off both ends, and nothing else. */
  lemma StripTakesBlanks(s: string) returns (front: string, back: string)
    ensures s == front + Strip(s) + back && AllSpace(front) && AllSpace(back)
  {
    var from, to := VisibleFrom(s, 0), VisibleTo(s, |s|);
    if from < to {
      front, back := s[..from], s[to..];
      assert s == s[..from] + s[from..to] + s[to..];
    }
    else {
      front, back := s, "";
      StripBlank(s);
    }
  }

  lemma StripPadded(front: string, text: string, back: string)
    requires AllSpace(front) && AllSpace(back) && Trimmed(text)
    ensures Strip(front + text + back) == text
  {
    var s := front + text + back;
    if text == "" {
      assert AllSpace(s);
      StripBlank(s);
    } else {
      var from, to := VisibleFrom(s, 0), VisibleTo(s, |s|);
      assert s[|front|] == text[0] && s[|front| + |text| - 1] == text[|text| - 1];
      assert forall i | 0 <= i < |front| :: s[i] == front[i];
      assert forall i | 0 <= i < |back| :: s[|front| + |text| + i] == back[i];
      assert from == |front| && to == |front| + |text|;
    }
  }

  /** `text` is what is left of `s` without the blanks at its ends. */
  ghost predicate Padded(s: string, text: string) {
    Trimmed(text) && exists front, back :: AllSpace(front) && AllSpace(back) && s == front + text + back
  }

  lemma StripIs(s: string, text: string)
    ensures Strip(s) == text <==> Padded(s, text)
  {
    var front, back := StripTakesBlanks(s);
    if Padded(s, text) {
      var f, b :| AllSpace(f) && AllSpace(b) && s == f + text + b;
      StripPadded(f, text, b);
    }
  }

  lemma StripLonger(front: string, s: string, back: string)
    requires AllSpace(front) && AllSpace(back)
    ensures Strip(front + s + back) == Strip(s)
  {
    hide Strip, AllSpace;
    var f, b := StripTakesBlanks(s);
    BlanksJoin(front, f);
    BlanksJoin(b, back);
    StripPadded(front + f, Strip(s), b + back);
    assert front + s + back == (front + f) + Strip(s) + (b + back);
  }

  lemma BlanksJoin(a: string, b: string)
    requires AllSpace(a) && AllSpace(b)
    ensures AllSpace(a + b)
  {}

  // -- Key=Value lines -----------------------------------------------------------------------

  /** The line on either side of its first equals sign. */
  predicate Halves(line: string, left: string, right: string) {
    '=' !in left && line == left + "=" + right
  }

  /** Where the blanks at a line's ends stop short of its first equals sign. */
  lemma BlanksStopAtEquals(line: string, left: string, right: string, a: string, t: string, d: string)
    requires Halves(line, left, right) && line == a + t + d && AllSpace(a) && AllSpace(d)
    ensures |a| <= |left| < |line| - |d|
    ensures left == a + t[..|left| - |a|] && right == t[|left| - |a| + 1..] + d
    ensures EqualsSign(t) == |left| - |a| < |t|
  {
    hide AllSpace, EqualsSign;
    EqualsIsInside(left, right, a, t, d);
    var i := |left| - |a|;
    SlicesAre(left, right, a, t, d);
    NoneBefore(left, a, t[..i]);
    EqualsSignIs(t, i);
  }

  lemma NoneBefore(left: string, a: string, rest: string)
    requires '=' !in left && left == a + rest
    ensures forall j | 0 <= j < |rest| :: rest[j] != '='
  {
    assert forall j | 0 <= j < |rest| :: left[|a| + j] == rest[j];
  }

  lemma EqualsIsInside(left: string, right: string, a: string, t: string, d: string)
    requires left + "=" + right == a + t + d && AllSpace(a) && AllSpace(d)
    ensures |a| <= |left| < |a| + |t|
  {
    var line := left + "=" + right;
    assert line[|left|] == '=';
    assert forall j | 0 <= j < |a| :: line[j] == a[j] && a[j] in a;
    assert forall j | 0 <= j < |d| :: line[|a| + |t| + j] == d[j] && d[j] in d;
  }

  lemma SlicesAre(left: string, right: string, a: string, t: string, d: string)
    requires left + "=" + right == a + t + d && |a| <= |left| < |a| + |t|
    ensures var i := |left| - |a|;
      left == a + t[..i] && t[i] == '=' && right == t[i + 1..] + d
  {
    var line, i := left + "=" + right, |left| - |a|;
    assert left == line[..|left|] == a + t[..i];
    assert right == line[|left| + 1..] == t[i + 1..] + d;
    assert line[|left|] == t[i];
  }

  lemma StrippedHalves(line: string, left: string, right: string)
    requires Halves(line, left, right)
    ensures var t := Strip(line);
      var i := EqualsSign(t);
      && i < |t| && Strip(t[..i]) == Strip(left) && Strip(t[i + 1..]) == Strip(right)
      && (Strip(left) != "" ==> t[0] == Strip(left)[0])
  {
    var t := Strip(line);
    var a, d := StripTakesBlanks(line);
    hide Strip, EqualsSign, Halves;
    BlanksStopAtEquals(line, left, right, a, t, d);
    var i := EqualsSign(t);
    assert AllSpace("");
    StripLonger(a, t[..i], "");
    StripLonger("", t[i + 1..], d);
    assert a + t[..i] + "" == left && "" + t[i + 1..] + d == right;
    if Strip(left) != "" {
      StripPrefix(t[..i]);
      assert Strip(t[..i])[0] == t[..i][0];
    }
  }

  /** A line has a key and a value exactly when something visible stands before its first equals
      sign and does not start with a comment mark or a bracket; the value is all that follows,
      blanks at the ends apart. */
  lemma KeyValueGrammar(line: string, key: string, value: string)
    ensures SplitKeyValue(line) == Some((key, value)) <==>
      key != "" && key[0] != ';' && key[0] != '#' && key[0] != '[' && SaysPair(line, key, value)
  {
    hide Strip, EqualsSign;
    if SaysPair(line, key, value) {
      var left, right :| Halves(line, left, right) && Strip(left) == key && Strip(right) == value;
      StrippedHalves(line, left, right);
    }
    if SplitKeyValue(line).Some? {
      var left, right := HalvesOf(line);
      StrippedHalves(line, left, right);
    }
  }

  ghost predicate SaysPair(line: string, key: string, value: string) {
    exists left, right :: Halves(line, left, right) && Strip(left) == key && Strip(right) == value
  }

  lemma HalvesOf(line: string) returns (left: string, right: string)
    requires SplitKeyValue(line).Some?
    ensures Halves(line, left, right)
  {
    var t := Strip(line);
    var a, d := StripTakesBlanks(line);
    hide Strip, EqualsSign;
    var i := EqualsSign(t);
    left, right := a + t[..i], t[i + 1..] + d;
    assert t == t[..i] + "=" + t[i + 1..];
    assert line == left + "=" + right;
    BlanksHaveNoEquals(a);
  }

  lemma BlanksHaveNoEquals(a: string)
    requires AllSpace(a)
    ensures '=' !in a
  {}

  // -- the keys of socials ---------------------------------------------------------------------

  /** A number in decimal, leading zeros or not. */
  predicate Spells(digits: string, n: nat) { digits != "" && AllDigits(digits) && ParseDigits(digits) == n }

  /** What stands after the button's number. */
  predicate EndsKey(tail: string, field: Field, digits: string) {
    match field
    case Name => tail == "name" && digits == ""
    case Color => tail == "color" && digits == ""
    case Line(index) => tail == "line" + digits && Spells(digits, index)
  }

  ghost predicate KeyOf(text: string, key: Key, page: string, button: string, digits: string, tail: string) {
    && Spells(page, key.slot.0) && Spells(button, key.slot.1) && EndsKey(tail, key.field, digits)
    && Lower(text) == "page" + (page + ("button" + (button + tail)))
  }

  ghost predicate NamesKey(text: string, key: Key) {
    exists page, button, digits, tail :: KeyOf(text, key, page, button, digits, tail)
  }

  lemma NumberIs(digits: string, n: nat, rest: string)
    requires Spells(digits, n) && (rest == "" || !IsDigit(rest[0]))
    ensures Number(digits + rest) == Some((n, rest))
  {
    hide DigitRun, ParseDigits;
    DigitRunIs(digits, rest);
    assert (digits + rest)[..|digits|] == digits && (digits + rest)[|digits|..] == rest;
  }

  lemma NumberSpells(s: string)
    requires Number(s).Some?
    ensures var n := DigitRun(s); Spells(s[..n], Number(s).value.0) && s == s[..n] + Number(s).value.1
  {
    hide DigitRun, ParseDigits;
  }

  lemma FieldEnds(tail: string) returns (digits: string)
    requires ParseField(tail).Some?
    ensures EndsKey(tail, ParseField(tail).value, digits)
  {
    digits := if tail == "name" || tail == "color" then "" else tail[4..];
    if digits != "" { assert tail == tail[..4] + tail[4..]; }
  }

  lemma EndsField(tail: string, field: Field, digits: string)
    requires EndsKey(tail, field, digits)
    ensures ParseField(tail) == Some(field) && tail != "" && !IsDigit(tail[0])
  {
    if field.Line? {
      assert tail[0] == 'l';
      ExpectJoined("line", digits);
    }
  }

  /** A text names a key exactly when it is, in any case, Page and a number, Button and a number,
      and then Name, Color, or Line and a number, and nothing else. */
  lemma KeyGrammar(text: string, key: Key)
    ensures ParseKey(text) == Some(key) <==> NamesKey(text, key)
  {
    hide ParseKey, NamesKey;
    if ParseKey(text) == Some(key) { ParsedNames(text, key); }
    if NamesKey(text, key) { NamesParsed(text, key); }
  }

  lemma ParsedNames(text: string, key: Key)
    requires ParseKey(text) == Some(key)
    ensures NamesKey(text, key)
  {
    hide Number, ParseField, Lower, EndsKey, Spells;
    var low := Lower(text);
    var rest := Expect("page", low).value;
    assert low == "page" + rest;
    NumberSpells(rest);
    var tail := Number(rest).value.1;
    var more := Expect("button", tail).value;
    assert tail == "button" + more;
    NumberSpells(more);
    var last := Number(more).value.1;
    var digits := FieldEnds(last);
    assert KeyOf(text, key, rest[..DigitRun(rest)], more[..DigitRun(more)], digits, last);
  }

  lemma NamesParsed(text: string, key: Key)
    requires NamesKey(text, key)
    ensures ParseKey(text) == Some(key)
  {
    var page, button, digits, tail :| KeyOf(text, key, page, button, digits, tail);
    hide Number, ParseField, Lower, EndsKey, Spells, Expect, IsDigit;
    var more := button + tail;
    EndsField(tail, key.field, digits);
    NumberIs(button, key.slot.1, tail);
    ExpectJoined("button", more);
    assert ParseButton(key.slot.0, "button" + more) == Some(key);
    hide ParseButton;
    NotDigit("button" + more);
    NumberIs(page, key.slot.0, "button" + more);
    ExpectJoined("page", page + ("button" + more));
  }

  /** Numbers are written without leading zeros. */
  lemma {:induction false} DecimalIsShortest(n: nat)
    ensures Spells(Decimal(n), n) && (Decimal(n)[0] == '0' ==> n == 0 && Decimal(n) == "0")
  {
    ParseDecimal(n);
    if n >= 10 { DecimalIsShortest(n / 10); }
  }

  /** The spelling a new key is written in. */
  lemma KeysAreSpelled(key: Key)
    ensures KeyText(key) == "Page" + (Decimal(key.slot.0) + ("Button" + (Decimal(key.slot.1) +
      match key.field { case Name => "Name" case Color => "Color" case Line(index) => "Line" + Decimal(index) })))
  {}

  /** The blanks, and the case of letters. */
  lemma CharactersAre(c: char)
    ensures IsSpace(c) <==>
      c in [' ', '\t', '\n', '\U{0b}', '\U{0c}', '\r', '\U{1c}', '\U{1d}', '\U{1e}', '\U{1f}']
    ensures 'A' <= c <= 'Z' ==> 'a' <= LowerChar(c) <= 'z' && LowerChar(c) as int - c as int == 32
    ensures !('A' <= c <= 'Z') ==> LowerChar(c) == c
  {}

  /** A sign may stand before a number; letters and inner blanks make it none. */
  lemma SignedNumbers(n: nat)
    ensures ParseInt("-" + Decimal(n)) == Some(-(n as int)) && ParseInt("+" + Decimal(n)) == Some(n)
  {
    hide Decimal, ParseDigits, Ungrouped;
    var s := Decimal(n);
    ParseIntDecimal(n);
    assert ("-" + s)[1..] == s && ("+" + s)[1..] == s;
    assert IsDigit(s[0]);
  }

  lemma NotANumber(s: string, i: nat)
    requires 0 < i < |s| && !IsDigit(s[i]) && s[i] != '_'
    ensures ParseInt(s) == None
  {
    hide Ungrouped, ParseDigits;
    assert s[1..][i - 1] == s[i];
    UngroupedKeeps(s, i);
    UngroupedKeeps(s[1..], i - 1);
  }

  lemma {:induction false} UngroupedKeeps(s: string, i: nat)
    requires i < |s| && !IsDigit(s[i]) && s[i] != '_'
    ensures !AllDigits(Ungrouped(s))
  {
    var init, last := s[..|s| - 1], s[|s| - 1];
    var r := Ungrouped(init);
    if i < |init| {
      UngroupedKeeps(init, i);
      var j :| 0 <= j < |r| && !IsDigit(r[j]);
      assert Ungrouped(s)[j] == r[j];
    } else {
      assert Ungrouped(s)[|r|] == last;
    }
  }
}
