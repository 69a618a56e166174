/** Splitting C# source on a separator at the top level of its brackets. */
module Splitting {
  import opened Options
  import opened Text
  import opened Scanners

  /** Braces and parentheses count alike. */
  function Brackets(c: char, lex: Lex): Lex { Step(c, lex, {'{', '('}, {'}', ')'}) }

  /** A separator the scan stops at: outside strings and brackets, and nothing else it looks for. */
  predicate Cuts(c: char, lex: Lex, sep: char) {
    lex == TOP && c == sep && c != '"' && c !in {'{', '(', '}', ')'}
  }

  /** A backslash inside a string with nothing after it. */
  predicate Dangles(text: string, lex: Lex)
    requires text != ""
  {
    lex.inString && text[0] == '\\' && |text| == 1
  }

  /** The pieces as they stand in the text, or None where the scan runs off its end. */
  function Pieces(text: string, lex: Lex, sep: char): (r: Option<seq<string>>)
    ensures r.Some? ==> r.value != []
    decreases |text|
  {
    if text == "" then Some([""])
    else if Dangles(text, lex) then None
    else if Cuts(text[0], lex, sep) then Before("", Pieces(text[1..], TOP, sep))
    else
      var n := Unit(text, lex);
      Onto(text[..n], Pieces(text[n..], Brackets(text[0], lex), sep))
  }

  /** A piece in front of the others. */
  function Before(piece: string, rest: Option<seq<string>>): Option<seq<string>> {
    match rest case None => None case Some(pieces) => Some([piece] + pieces)
  }

  /** More text at the start of the first piece. */
  function Onto(text: string, rest: Option<seq<string>>): (r: Option<seq<string>>)
    ensures r.Some? ==> r.value != []
  {
    match rest
    case None => None
    case Some(pieces) => if pieces == [] then Some([text]) else Some([text + pieces[0]] + pieces[1..])
  }

  function Join(pieces: seq<string>, sep: char): string {
    if pieces == [] then "" else if |pieces| == 1 then pieces[0] else pieces[0] + [sep] + Join(pieces[1..], sep)
  }

  /** A piece the scan crosses without cutting and leaves at the top level. */
  predicate Closed(piece: string, lex: Lex, sep: char)
    decreases |piece|
  {
    if piece == "" then lex == TOP
    else !Dangles(piece, lex) && !Cuts(piece[0], lex, sep) &&
         Closed(piece[Unit(piece, lex)..], Brackets(piece[0], lex), sep)
  }

  // -- splitting what was joined ------------------------------------------------------------------

  lemma ClosedCases(piece: string, lex: Lex, sep: char)
    requires piece != ""
    ensures Closed(piece, lex, sep) <==>
      !Dangles(piece, lex) && !Cuts(piece[0], lex, sep) &&
        Closed(piece[Unit(piece, lex)..], Brackets(piece[0], lex), sep)
  {}

  lemma PiecesCases(text: string, lex: Lex, sep: char)
    requires text != ""
    ensures Pieces(text, lex, sep) ==
      if Dangles(text, lex) then None
      else if Cuts(text[0], lex, sep) then Before("", Pieces(text[1..], TOP, sep))
      else Onto(text[..Unit(text, lex)], Pieces(text[Unit(text, lex)..], Brackets(text[0], lex), sep))
  {}

  predicate Separates(sep: char) { sep != '"' && sep !in {'{', '(', '}', ')'} }

  /** A closed piece alone is one piece. */
  lemma {:induction false} ClosedIsWhole(piece: string, lex: Lex, sep: char)
    requires Closed(piece, lex, sep)
    ensures Pieces(piece, lex, sep) == Some([piece])
    decreases |piece|
  {
    if piece != "" {
      PiecesCases(piece, lex, sep);
      ClosedCases(piece, lex, sep);
      hide Pieces, Closed, Brackets, Before, Onto, Unit, Cuts, Dangles;
      var n := Unit(piece, lex);
      ClosedIsWhole(piece[n..], Brackets(piece[0], lex), sep);
      OntoBefore(piece[..n], piece[n..], None);
      assert piece == piece[..n] + piece[n..];
    }
  }

  /** A closed piece and then the separator is split off whole. */
  lemma {:induction false} ClosedSplitsOff(piece: string, rest: string, lex: Lex, sep: char)
    requires Closed(piece, lex, sep) && Separates(sep)
    ensures Pieces(piece + [sep] + rest, lex, sep) == Before(piece, Pieces(rest, TOP, sep))
    decreases |piece|
  {
    var text := piece + [sep] + rest;
    if piece == "" {
      assert text == [sep] + rest;
      CutsAtSeparator(rest, lex, sep);
    } else {
      ClosedCases(piece, lex, sep);
      PiecesCases(text, lex, sep);
      hide Pieces, Closed, Brackets, Before, Onto, Unit, Cuts, Dangles;
      StepsAlike(piece, sep, rest, lex);
      var n := Unit(piece, lex);
      ClosedSplitsOff(piece[n..], rest, Brackets(piece[0], lex), sep);
      OntoBefore(piece[..n], piece[n..], Pieces(rest, TOP, sep));
      assert piece == piece[..n] + piece[n..];
    }
  }

  lemma CutsAtSeparator(rest: string, lex: Lex, sep: char)
    requires lex == TOP && Separates(sep)
    ensures Pieces([sep] + rest, lex, sep) == Before("", Pieces(rest, TOP, sep))
  {
    PiecesCases([sep] + rest, lex, sep);
    assert ([sep] + rest)[1..] == rest;
  }

  /** The scan takes from a piece what it takes from the text the piece starts. */
  lemma StepsAlike(piece: string, sep: char, rest: string, lex: Lex)
    requires piece != "" && !Dangles(piece, lex)
    ensures var text, n := piece + [sep] + rest, Unit(piece, lex);
      && Unit(text, lex) == n && text[0] == piece[0] && !Dangles(text, lex)
      && text[n..] == piece[n..] + [sep] + rest && text[..n] == piece[..n]
  {
    UnitKept(piece + [sep] + rest, piece, lex, lex);
  }

  lemma OntoBefore(start: string, piece: string, rest: Option<seq<string>>)
    ensures Onto(start, Before(piece, rest)) == Before(start + piece, rest)
    ensures Onto(start, Some([piece])) == Some([start + piece])
  {
    if rest.Some? { assert ([piece] + rest.value)[1..] == rest.value; }
    assert [start + piece] + [piece][1..] == [start + piece];
  }

  /** Splitting undoes joining, for closed pieces. */
  lemma {:induction false} PiecesOfJoin(pieces: seq<string>, sep: char)
    requires pieces != [] && Separates(sep) && forall p | p in pieces :: Closed(p, TOP, sep)
    ensures Pieces(Join(pieces, sep), TOP, sep) == Some(pieces)
  {
    hide Pieces, Closed;
    assert pieces[0] in pieces;
    if |pieces| == 1 {
      ClosedIsWhole(pieces[0], TOP, sep);
      assert pieces == [pieces[0]];
    } else {
      assert forall p | p in pieces[1..] :: p in pieces;
      PiecesOfJoin(pieces[1..], sep);
      ClosedSplitsOff(pieces[0], Join(pieces[1..], sep), TOP, sep);
      assert pieces == [pieces[0]] + pieces[1..];
    }
  }

  // -- joining what was split ---------------------------------------------------------------------

  /** All but the last piece are closed, the first from where the scan started. */
  ghost predicate ClosedButLast(pieces: seq<string>, lex: Lex, sep: char) {
    forall i | 0 <= i < |pieces| - 1 :: Closed(pieces[i], if i == 0 then lex else TOP, sep)
  }

  lemma JoinOnto(start: string, pieces: seq<string>, sep: char)
    requires pieces != []
    ensures Join([start + pieces[0]] + pieces[1..], sep) == start + Join(pieces, sep)
  {
    var longer := [start + pieces[0]] + pieces[1..];
    assert longer[1..] == pieces[1..];
    assert |pieces| > 1 ==>
      start + pieces[0] + [sep] + Join(pieces[1..], sep) == start + (pieces[0] + [sep] + Join(pieces[1..], sep));
  }

  /** Joining undoes splitting, for any text, and every cut is at the top level. */
  lemma {:induction false} JoinOfPieces(text: string, lex: Lex, sep: char)
    requires Pieces(text, lex, sep).Some?
    ensures var pieces := Pieces(text, lex, sep).value;
      Join(pieces, sep) == text && ClosedButLast(pieces, lex, sep)
    decreases |text|
  {
    if text != "" {
      PiecesCases(text, lex, sep);
      hide Pieces, Brackets;
      var pieces := Pieces(text, lex, sep).value;
      if Cuts(text[0], lex, sep) {
        JoinOfPieces(text[1..], TOP, sep);
        assert pieces[1..] == Pieces(text[1..], TOP, sep).value;
        assert text == [sep] + text[1..] && Join(pieces, sep) == "" + [sep] + Join(pieces[1..], sep);
        assert forall i | 1 <= i < |pieces| - 1 :: pieces[i] == pieces[1..][i - 1];
      } else {
        var n, next := Unit(text, lex), Brackets(text[0], lex);
        var rest := Pieces(text[n..], next, sep).value;
        JoinOfPieces(text[n..], next, sep);
        JoinOnto(text[..n], rest, sep);
        assert text == text[..n] + text[n..];
        if |rest| > 1 { ClosedOnto(text, lex, sep, rest[0]); }
        assert forall i | 1 <= i < |pieces| :: pieces[i] == rest[i];
      }
    }
  }

  lemma ClosedOnto(text: string, lex: Lex, sep: char, piece: string)
    requires text != "" && !Dangles(text, lex) && !Cuts(text[0], lex, sep)
    requires Closed(piece, Brackets(text[0], lex), sep)
    ensures Closed(text[..Unit(text, lex)] + piece, lex, sep)
  {
    hide Brackets, Closed;
    var n := Unit(text, lex);
    var longer := text[..n] + piece;
    assert longer[n..] == piece && longer[0] == text[0];
    ClosedCases(longer, lex, sep);
    assert lex.inString && text[0] == '\\' ==> n == 2;
    assert Unit(longer, lex) == n;
  }

  // -- the parts a caller gets ------------------------------------------------------------------------

  /** The pieces trimmed, the blank ones left out. */
  function Trims(pieces: seq<string>): seq<string> {
    if pieces == [] then []
    else
      var part := Strip(pieces[|pieces| - 1]);
      Trims(pieces[..|pieces| - 1]) + if part == "" then [] else [part]
  }

  function Parts(text: string, sep: char): Option<seq<string>> {
    match Pieces(text, TOP, sep) case None => None case Some(pieces) => Some(Trims(pieces))
  }

  lemma {:induction false} TrimmedStay(parts: seq<string>)
    requires forall p | p in parts :: p != "" && Trimmed(p)
    ensures Trims(parts) == parts
  {
    hide Strip, Trimmed, Trims;
    if parts == [] {
      NothingTrims();
    } else {
      var init, last := parts[..|parts| - 1], parts[|parts| - 1];
      assert last in parts && forall p | p in init :: p in parts;
      TrimmedStay(init);
      StripTrimmed(last);
      TrimsLast(parts);
      assert parts == init + [last];
    }
  }

  lemma NothingTrims()
    ensures Trims([]) == []
  {}

  lemma TrimsLast(parts: seq<string>)
    requires parts != []
    ensures var part := Strip(parts[|parts| - 1]);
      Trims(parts) == Trims(parts[..|parts| - 1]) + if part == "" then [] else [part]
  {
    hide Strip;
  }

  /** Splitting undoes joining by the separator, for any parts that are trimmed, not blank,
      and balanced in brackets and quotes with no separator outside them. */
  lemma PartsOfJoin(parts: seq<string>, sep: char)
    requires Separates(sep) && forall p | p in parts :: p != "" && Trimmed(p) && Closed(p, TOP, sep)
    ensures Parts(Join(parts, sep), sep) == Some(parts)
  {
    hide Pieces, Strip, Closed, Trimmed;
    if parts == [] {
      EmptyParts(sep);
    } else {
      PiecesOfJoin(parts, sep);
      TrimmedStay(parts);
    }
  }

  lemma EmptyParts(sep: char)
    ensures Parts("", sep) == Some([])
  {
    hide Strip;
    StripTrimmed("");
    assert [""][..0] == [] && Trims([]) == [];
    assert Trims([""]) == [];
    assert Pieces("", TOP, sep) == Some([""]);
  }

  method SplitTopLevel(text: string, sep: char) returns (parts: Option<seq<string>>)
    ensures parts == Parts(text, sep)
  {
    hide Pieces, Trims, Brackets;
    var pieces: seq<string>, cur := [], "";
    var lex := TOP;
    var i := 0;
    assert text[0..] == text;
    OntoNothing(Pieces(text, TOP, sep));
    while i < |text|
      invariant 0 <= i <= |text|
      invariant Pieces(text, TOP, sep) == After(pieces, Onto(cur, Pieces(text[i..], lex, sep)))
    {
      var ch := text[i];
      var rest := text[i..];
      PiecesCases(rest, lex, sep);
      assert rest[1..] == text[i + 1..] && rest[..1] == [ch];
      if i + 1 < |text| { assert rest[2..] == text[i + 2..] && rest[..2] == text[i..i + 2]; }
      if lex.inString && ch == '\\' {
        if i + 1 == |text| { return None; }
        OntoOnto(cur, text[i..i + 2], Pieces(text[i + 2..], Brackets(ch, lex), sep));
        cur := cur + text[i..i + 2];
        lex := Brackets(ch, lex);
        i := i + 2;
      } else if Cuts(ch, lex, sep) {
        AfterCut(pieces, cur, Pieces(text[i + 1..], TOP, sep));
        pieces, cur := pieces + [cur], "";
        i := i + 1;
      } else {
        OntoOnto(cur, [ch], Pieces(text[i + 1..], Brackets(ch, lex), sep));
        cur := cur + [ch];
        lex := Brackets(ch, lex);
        i := i + 1;
      }
    }
    assert text[i..] == "";
    LastPiece(pieces, cur, lex, sep);
    parts := Some(Trims(pieces + [cur]));
  }

  function After(pieces: seq<string>, rest: Option<seq<string>>): Option<seq<string>> {
    match rest case None => None case Some(more) => Some(pieces + more)
  }

  lemma OntoNothing(rest: Option<seq<string>>)
    requires rest.Some? ==> rest.value != []
    ensures After([], Onto("", rest)) == rest
  {
    if rest.Some? {
      assert [] + ([rest.value[0]] + rest.value[1..]) == rest.value && "" + rest.value[0] == rest.value[0];
    }
  }

  lemma OntoOnto(cur: string, more: string, rest: Option<seq<string>>)
    requires rest.Some? ==> rest.value != []
    ensures Onto(cur, Onto(more, rest)) == Onto(cur + more, rest)
  {
    if rest.Some? {
      assert ([more + rest.value[0]] + rest.value[1..])[1..] == rest.value[1..];
      assert cur + (more + rest.value[0]) == cur + more + rest.value[0];
    }
  }

  lemma AfterCut(pieces: seq<string>, cur: string, rest: Option<seq<string>>)
    requires rest.Some? ==> rest.value != []
    ensures After(pieces, Onto(cur, Before("", rest))) == After(pieces + [cur], Onto("", rest))
  {
    if rest.Some? {
      assert ([""] + rest.value)[1..] == rest.value && cur + "" == cur;
      assert "" + rest.value[0] == rest.value[0] && [rest.value[0]] + rest.value[1..] == rest.value;
      assert pieces + ([cur] + rest.value) == pieces + [cur] + rest.value;
    }
  }

  lemma LastPiece(pieces: seq<string>, cur: string, lex: Lex, sep: char)
    ensures After(pieces, Onto(cur, Pieces("", lex, sep))) == Some(pieces + [cur])
  {
    assert [""][1..] == [] && cur + "" == cur && [cur] + [] == [cur];
  }
}
