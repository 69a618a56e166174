/** The string-aware scanners over C# source: comment stripping, brace matching, splitting. */
module Scanners {
  import opened Options

  // -- comments ---------------------------------------------------------------------------------

  /** What is left once a comment has run to the end of its line. */
  function AfterComment(text: string): (r: string)
    ensures |r| <= |text| && r == text[|text| - |r|..]
    ensures r == "" || r[0] == '\n'
  {
    if text == "" || text[0] == '\n' then text else AfterComment(text[1..])
  }

  predicate StartsComment(text: string) { |text| > 1 && text[0] == '/' && text[1] == '/' }

  predicate Escapes(text: string) { |text| > 1 && text[0] == '\\' }

  function Uncommented(text: string, inString: bool): string
    decreases |text|
  {
    if text == "" then ""
    else if inString then
      if Escapes(text) then text[..2] + Uncommented(text[2..], true)
      else [text[0]] + Uncommented(text[1..], text[0] != '"')
    else if StartsComment(text) then Uncommented(AfterComment(text[2..]), false)
    else [text[0]] + Uncommented(text[1..], text[0] == '"')
  }

  /** No comment starts outside a string literal. */
  predicate CommentFree(text: string, inString: bool)
    decreases |text|
  {
    if text == "" then true
    else if inString then
      if Escapes(text) then CommentFree(text[2..], true) else CommentFree(text[1..], text[0] != '"')
    else !StartsComment(text) && CommentFree(text[1..], text[0] == '"')
  }

  /** The string literals of the code, comments aside, with their quotes and escapes as written;
      the first is what remains of the literal the scan starts in. */
  function Literals(text: string, inString: bool): (r: seq<string>)
    ensures inString ==> r != []
    decreases |text|
  {
    if text == "" then if inString then [""] else []
    else if inString then
      if Escapes(text) then
        var rest := Literals(text[2..], true);
        [text[..2] + rest[0]] + rest[1..]
      else if text[0] == '"' then [['"']] + Literals(text[1..], false)
      else
        var rest := Literals(text[1..], true);
        [[text[0]] + rest[0]] + rest[1..]
    else if StartsComment(text) then Literals(AfterComment(text[2..]), false)
    else if text[0] == '"' then
      var rest := Literals(text[1..], true);
      [['"'] + rest[0]] + rest[1..]
    else Literals(text[1..], false)
  }

  /** Outside a string, what is kept starts with what was there unless that starts a comment. */
  lemma UncommentedStart(text: string)
    ensures text == "" ==> Uncommented(text, false) == ""
    ensures text != "" && text[0] != '/' ==> Uncommented(text, false) != "" && Uncommented(text, false)[0] == text[0]
  {}

  /** Stripping leaves no comment outside a string, and every literal as it was. */
  lemma {:induction false} StrippedIsClean(text: string, inString: bool)
    ensures CommentFree(Uncommented(text, inString), inString)
    ensures Literals(Uncommented(text, inString), inString) == Literals(text, inString)
    decreases |text|
  {
    hide AfterComment;
    var out := Uncommented(text, inString);
    if text == "" {
    } else if inString {
      if Escapes(text) {
        StrippedIsClean(text[2..], true);
        assert out[2..] == Uncommented(text[2..], true) && out[..2] == text[..2];
      } else {
        StrippedIsClean(text[1..], text[0] != '"');
        assert out[1..] == Uncommented(text[1..], text[0] != '"');
        LoneBackslash(text);
      }
    } else if StartsComment(text) {
      StrippedIsClean(AfterComment(text[2..]), false);
    } else {
      StrippedIsClean(text[1..], text[0] == '"');
      assert out[1..] == Uncommented(text[1..], text[0] == '"');
      if text[0] == '/' { UncommentedStart(text[1..]); }
    }
  }

  /** A backslash that ends the text escapes nothing, before or after. */
  lemma LoneBackslash(text: string)
    requires text != "" && !Escapes(text)
    ensures !Escapes([text[0]] + Uncommented(text[1..], text[0] != '"'))
  {}

  lemma {:induction false} CleanIsKept(text: string, inString: bool)
    ensures Uncommented(text, inString) == text <==> CommentFree(text, inString)
    decreases |text|
  {
    hide AfterComment;
    if CommentFree(text, inString) {
      if text == "" {
      } else if inString && Escapes(text) {
        CleanIsKept(text[2..], true);
        assert text == text[..2] + text[2..];
      } else {
        CleanIsKept(text[1..], if inString then text[0] != '"' else text[0] == '"');
        assert text == [text[0]] + text[1..];
      }
    } else {
      StrippedIsClean(text, inString);
    }
  }

  /** Stripping comments twice is stripping them once. */
  lemma StrippingIsIdempotent(text: string)
    ensures Uncommented(Uncommented(text, false), false) == Uncommented(text, false)
  {
    StrippedIsClean(text, false);
    CleanIsKept(Uncommented(text, false), false);
  }

  /** One turn of the scan, from position `i`. */
  lemma UncommentedAt(text: string, i: nat, inString: bool)
    requires i < |text|
    ensures var one := [text[i]] + Uncommented(text[i + 1..], if inString then text[i] != '"' else text[i] == '"');
      if inString && text[i] == '\\' && i + 1 < |text|
      then Uncommented(text[i..], inString) == text[i..i + 2] + Uncommented(text[i + 2..], true)
      else if !inString && text[i] == '/' && i + 1 < |text| && text[i + 1] == '/' then
        Uncommented(text[i..], inString) == Uncommented(AfterComment(text[i + 2..]), false)
      else Uncommented(text[i..], inString) == one
  {
    hide AfterComment;
    var rest := text[i..];
    assert rest[1..] == text[i + 1..];
    if i + 1 < |text| { assert rest[2..] == text[i + 2..] && rest[..2] == text[i..i + 2]; }
  }

  lemma AfterCommentAt(text: string, i: nat)
    requires i <= |text|
    ensures AfterComment(text[i..]) == if i == |text| || text[i] == '\n' then text[i..] else AfterComment(text[i + 1..])
  {
    if i < |text| { assert text[i..][1..] == text[i + 1..]; }
  }

  /** Past the comment that starts at `from`. */
  method SkipComment(text: string, from: nat) returns (i: nat)
    requires from <= |text|
    ensures from <= i <= |text| && text[i..] == AfterComment(text[from..])
  {
    hide AfterComment;
    i := from;
    while i < |text| && text[i] != '\n'
      invariant from <= i <= |text|
      invariant AfterComment(text[from..]) == AfterComment(text[i..])
    {
      AfterCommentAt(text, i);
      i := i + 1;
    }
    AfterCommentAt(text, i);
  }

  method StripLineComments(text: string) returns (out: string)
    ensures out == Uncommented(text, false)
  {
    hide Uncommented, AfterComment;
    out := "";
    var i := 0;
    var inString := false;
    while i < |text|
      invariant 0 <= i <= |text|
      invariant out + Uncommented(text[i..], inString) == Uncommented(text, false)
    {
      var ch := text[i];
      UncommentedAt(text, i, inString);
      if inString {
        if ch == '\\' && i + 1 < |text| {
          out := out + text[i..i + 2];
          i := i + 2;
        } else {
          inString := ch != '"';
          out := out + [ch];
          i := i + 1;
        }
      } else if ch == '"' {
        inString := true;
        out := out + [ch];
        i := i + 1;
      } else if ch == '/' && i + 1 < |text| && text[i + 1] == '/' {
        i := SkipComment(text, i + 2);
      } else {
        out := out + [ch];
        i := i + 1;
      }
    }
    assert text[i..] == "";
    NothingUncommented(inString);
  }

  lemma NothingUncommented(inString: bool)
    ensures Uncommented("", inString) == ""
  {}

  // -- brackets -----------------------------------------------------------------------------------

  /** Where a scan is: how deep in brackets, and whether inside a string literal. */
  datatype Lex = Lex(depth: int, inString: bool)

  const TOP := Lex(0, false)

  /** How many characters the scan takes at once: a backslash in a string takes the next too. */
  function Unit(text: string, lex: Lex): (n: nat)
    requires text != ""
    ensures 1 <= n <= |text| && n <= 2
  {
    if lex.inString && Escapes(text) then 2 else 1
  }

  /** The state after the next unit, counting the given brackets. */
  function Step(c: char, lex: Lex, opens: set<char>, closes: set<char>): Lex {
    if lex.inString then lex.(inString := c != '"')
    else if c == '"' then lex.(inString := true)
    else if c in opens then lex.(depth := lex.depth + 1)
    else if c in closes then lex.(depth := lex.depth - 1)
    else lex
  }

  // -- matching braces ------------------------------------------------------------------------------

  function Braces(c: char, lex: Lex): Lex { Step(c, lex, {'{'}, {'}'}) }

  /** How far the scan goes until the depth is back to zero; None when it never is. */
  function MatchLength(text: string, lex: Lex): (r: Option<nat>)
    ensures r.Some? ==> 0 < r.value <= |text|
    decreases |text|
  {
    if text == "" then None
    else
      var n, next := Unit(text, lex), Braces(text[0], lex);
      if next.depth == 0 && !lex.inString && text[0] == '}' then Some(1)
      else Later(n, MatchLength(text[n..], next))
  }

  function Later(past: nat, r: Option<nat>): Option<nat> {
    match r case None => None case Some(k) => Some(past + k)
  }

  /** A stretch that closes every brace it opens and none that it did not. */
  predicate Balanced(inner: string, lex: Lex)
    decreases |inner|
  {
    if inner == "" then lex == TOP
    else if lex.inString && inner[0] == '\\' && |inner| == 1 then false
    else
      var next := Braces(inner[0], lex);
      next.depth >= 0 && Balanced(inner[Unit(inner, lex)..], next)
  }

  /** Whether the scan's next character closes the block. */
  predicate Closes(text: string, lex: Lex)
    requires text != ""
  {
    !lex.inString && text[0] == '}' && lex.depth == 1
  }

  lemma MatchCases(text: string, lex: Lex)
    requires text != ""
    ensures MatchLength(text, lex) ==
      if Closes(text, lex) then Some(1)
      else Later(Unit(text, lex), MatchLength(text[Unit(text, lex)..], Braces(text[0], lex)))
  {}

  /** A backslash inside a string has something after it to escape. */
  predicate Whole(inner: string, lex: Lex)
    requires inner != ""
  {
    !(lex.inString && inner[0] == '\\' && |inner| == 1)
  }

  lemma BalancedCases(inner: string, lex: Lex)
    requires inner != ""
    ensures Balanced(inner, lex) <==>
      Whole(inner, lex) && Braces(inner[0], lex).depth >= 0 &&
        Balanced(inner[Unit(inner, lex)..], Braces(inner[0], lex))
  {}

  lemma Deeper(c: char, lex: Lex)
    ensures Braces(c, lex.(depth := lex.depth + 1)) == Braces(c, lex).(depth := Braces(c, lex).depth + 1)
  {}

  lemma UnitKept(text: string, inner: string, lex: Lex, other: Lex)
    requires text != "" && inner != "" && inner <= text && Whole(inner, lex) && lex.inString == other.inString
    ensures Unit(text, lex) == Unit(inner, lex) == Unit(inner, other)
  {
    if |text| > 1 && |inner| > 1 { assert text[1] == inner[1]; }
  }

  /** From inside one open brace, the block ends right after a balanced stretch, and only there. */
  lemma {:induction false} MatchesBalanced(inner: string, post: string, lex: Lex)
    requires lex.depth >= 0 && Balanced(inner, lex)
    ensures MatchLength(inner + "}" + post, lex.(depth := lex.depth + 1)) == Some(|inner| + 1)
    decreases |inner|
  {
    hide MatchLength, Braces;
    var text, deep := inner + "}" + post, lex.(depth := lex.depth + 1);
    MatchCases(text, deep);
    if inner != "" {
      BalancedCases(inner, lex);
      hide Balanced;
      UnitKept(text, inner, lex, deep);
      UnitKept(text, inner, deep, lex);
      var n := Unit(inner, lex);
      assert text[n..] == inner[n..] + "}" + post;
      Deeper(inner[0], lex);
      assert !Closes(text, deep) by { NotTooDeep(inner[0], lex); }
      MatchesBalanced(inner[n..], post, Braces(inner[0], lex));
    }
  }

  lemma NotTooDeep(c: char, lex: Lex)
    requires Braces(c, lex).depth >= 0
    ensures !(c == '}' && !lex.inString && lex.depth == 0)
  {}

  lemma {:induction false} MatchIsBalanced(text: string, lex: Lex)
    requires lex.depth >= 0 && MatchLength(text, lex.(depth := lex.depth + 1)).Some?
    ensures var k := MatchLength(text, lex.(depth := lex.depth + 1)).value;
      text[k - 1] == '}' && Balanced(text[..k - 1], lex)
    decreases |text|
  {
    var deep := lex.(depth := lex.depth + 1);
    assert text != "";
    MatchCases(text, deep);
    var k := MatchLength(text, deep).value;
    hide MatchLength, Braces, Balanced, Unit;
    if Closes(text, deep) {
      assert text[..0] == "";
      EmptyBalanced();
    } else {
      var n, next := Unit(text, deep), Braces(text[0], lex);
      Deeper(text[0], lex);
      StillOpen(text[0], lex);
      MatchIsBalanced(text[n..], next);
      BalancedOnto(text, lex, deep, k - 1);
    }
  }

  lemma BalancedOnto(text: string, lex: Lex, deep: Lex, end: nat)
    requires text != "" && deep.inString == lex.inString && Unit(text, deep) <= end <= |text|
    requires Braces(text[0], lex).depth >= 0 &&
      Balanced(text[Unit(text, deep)..][..end - Unit(text, deep)], Braces(text[0], lex))
    ensures Balanced(text[..end], lex)
  {
    hide Balanced;
    var n, inner := Unit(text, deep), text[..end];
    assert inner[n..] == text[n..][..end - n];
    assert Whole(inner, deep) by {
      EmptyBalancedOnly(Braces(text[0], lex));
      if |inner| == 1 { assert inner[1..] == ""; }
    }
    UnitKept(text, inner, deep, lex);
    BalancedCases(inner, lex);
  }

  lemma EmptyBalancedOnly(lex: Lex)
    ensures Balanced("", lex) <==> lex == TOP
  {}

  lemma EmptyBalanced()
    ensures Balanced("", TOP)
  {}

  lemma StillOpen(c: char, lex: Lex)
    requires lex.depth >= 0 && !(c == '}' && !lex.inString && lex.depth == 0)
    ensures Braces(c, lex).depth >= 0
  {}

  /** The inner text and the index after the closing brace; None where the source raises. */
  function Block(text: string, from: nat): Option<(string, nat)>
    requires from < |text| && text[from] == '{'
  {
    match MatchLength(text[from + 1..], Lex(1, false))
    case None => None
    case Some(k) => Some((text[from + 1..from + k], from + 1 + k))
  }

  /** A block is found exactly when the brace is followed by a balanced stretch and a closing
      brace, and that stretch is the only one. */
  lemma BlockIsTheMatch(text: string, from: nat, end: nat)
    requires from < end <= |text| && text[from] == '{'
    ensures (Block(text, from).Some? && Block(text, from).value.1 == end) <==>
            (from + 2 <= end && text[end - 1] == '}' && Balanced(text[from + 1..end - 1], TOP))
    ensures Block(text, from).Some? ==> Block(text, from).value.0 == text[from + 1..Block(text, from).value.1 - 1]
  {
    hide MatchLength, Balanced;
    var rest := text[from + 1..];
    if Block(text, from).Some? {
      var k := MatchLength(rest, Lex(1, false)).value;
      MatchIsBalanced(rest, TOP);
      assert rest[..k - 1] == text[from + 1..from + k];
    }
    if from + 2 <= end && text[end - 1] == '}' && Balanced(text[from + 1..end - 1], TOP) {
      var inner, post := text[from + 1..end - 1], text[end..];
      assert rest == inner + "}" + post;
      MatchesBalanced(inner, post, TOP);
    }
  }

  /** Where the scan stands, counting from just inside the block. */
  ghost predicate Scanned(text: string, from: nat, i: nat, lex: Lex)
    requires from < |text|
  {
    if i == from then lex == TOP
    else if i > |text| then MatchLength(text[from + 1..], Lex(1, false)) == None
    else i > from && lex.depth > 0 &&
         MatchLength(text[from + 1..], Lex(1, false)) == Later(i - from - 1, MatchLength(text[i..], lex))
  }

  lemma ScannedStep(text: string, from: nat, i: nat, lex: Lex)
    requires from <= i < |text| && text[from] == '{' && Scanned(text, from, i, lex)
    ensures var next := Braces(text[i], lex);
      if !lex.inString && text[i] == '}' && next.depth == 0
      then MatchLength(text[from + 1..], Lex(1, false)) == Some(i - from)
      else Scanned(text, from, if lex.inString && text[i] == '\\' then i + 2 else i + 1, next)
  {
    hide MatchLength;
    var rest := text[i..];
    MatchCases(rest, lex);
    assert rest[1..] == text[i + 1..];
    if i + 1 < |text| { assert rest[2..] == text[i + 2..]; }
    if i + 1 == |text| { NothingMatches(Braces(text[i], lex)); }
  }

  lemma NothingMatches(lex: Lex)
    ensures MatchLength("", lex) == None
  {}

  method BalancedBlock(text: string, from: nat) returns (block: Option<(string, nat)>)
    requires from < |text| && text[from] == '{'
    ensures block == Block(text, from)
  {
    hide MatchLength, Scanned;
    var depth, inString, i := 0, false, from;
    assert Scanned(text, from, i, TOP) by { ScanStarts(text, from); }
    while i < |text|
      invariant from <= i && Scanned(text, from, i, Lex(depth, inString))
    {
      var ch := text[i];
      var n := 1;
      ScannedStep(text, from, i, Lex(depth, inString));
      if inString {
        if ch == '\\' { n := 2; } else if ch == '"' { inString := false; }
      } else if ch == '"' {
        inString := true;
      } else if ch == '{' {
        depth := depth + 1;
      } else if ch == '}' {
        depth := depth - 1;
        if depth == 0 { return Some((text[from + 1..i], i + 1)); }
      }
      i := i + n;
    }
    ScanEnds(text, from, i, Lex(depth, inString));
    return None;
  }

  lemma ScanStarts(text: string, from: nat)
    requires from < |text|
    ensures Scanned(text, from, from, TOP)
  {}

  lemma ScanEnds(text: string, from: nat, i: nat, lex: Lex)
    requires from < |text| <= i && Scanned(text, from, i, lex)
    ensures MatchLength(text[from + 1..], Lex(1, false)) == None
  {
    if i == |text| { assert text[i..] == ""; }
  }
}
