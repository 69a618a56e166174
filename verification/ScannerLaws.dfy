/** What the scanners make of comments, string literals and brackets, in plain terms. */
module ScannerLaws {
  import opened Options
  import opened Text
  import opened Scanners
  import opened Splitting

  // -- code and literals -----------------------------------------------------------------------

  /** Code without a string literal or a comment. */
  predicate PlainCode(a: string) { '"' !in a && forall i | 0 <= i < |a| :: !SlashesAt(a, i) }

  predicate SlashesAt(a: string, i: nat) { i + 1 < |a| && a[i] == '/' && a[i + 1] == '/' }

  /** What may stand between the quotes of a literal: no quote, unless a backslash escapes it, and
      no backslash that escapes nothing. */
  predicate LiteralBody(s: string)
    decreases |s|
  {
    s == "" || if s[0] == '\\' then |s| > 1 && LiteralBody(s[2..]) else s[0] != '"' && LiteralBody(s[1..])
  }

  predicate NoSlashes(a: string, rest: string) {
    a != "" && a[|a| - 1] == '/' ==> rest == "" || rest[0] != '/'
  }

  // -- comments ----------------------------------------------------------------------------------

  lemma {:induction false} PlainIsKept(a: string, rest: string)
    requires PlainCode(a) && NoSlashes(a, rest)
    ensures Uncommented(a + rest, false) == a + Uncommented(rest, false)
  {
    if a == "" {
      assert a + rest == rest && "" + Uncommented(rest, false) == Uncommented(rest, false);
    } else {
      NoCommentStarts(a, rest);
      PlainBehind(a);
      FrontOff(a, rest);
      hide Uncommented, StartsComment, PlainCode, NoSlashes;
      PlainIsKept(a[1..], rest);
      UncommentedPlain(a + rest);
      FrontOn(a, Uncommented(rest, false));
    }
  }

  lemma FrontOff(a: string, rest: string)
    requires a != "" && PlainCode(a) && NoSlashes(a, rest)
    ensures (a + rest)[1..] == a[1..] + rest && (a + rest)[0] == a[0] != '"' && NoSlashes(a[1..], rest)
  {
    assert a[0] in a;
  }

  lemma FrontOn(a: string, rest: string)
    requires a != ""
    ensures [a[0]] + (a[1..] + rest) == a + rest
  {}

  lemma PlainBehind(a: string)
    requires a != "" && PlainCode(a)
    ensures PlainCode(a[1..]) && !SlashesAt(a, 0)
  {
    assert forall c | c in a[1..] :: c in a;
    forall i | 0 <= i < |a| - 1 ensures !SlashesAt(a[1..], i) { assert !SlashesAt(a, i + 1); }
  }

  lemma NoCommentStarts(a: string, rest: string)
    requires a != "" && PlainCode(a) && NoSlashes(a, rest)
    ensures !StartsComment(a + rest)
  {
    assert !SlashesAt(a, 0);
  }

  lemma UncommentedPlain(text: string)
    requires text != "" && !StartsComment(text)
    ensures Uncommented(text, false) == [text[0]] + Uncommented(text[1..], text[0] == '"')
  {}

  lemma {:induction false} LiteralIsKept(s: string, rest: string)
    requires LiteralBody(s)
    ensures Uncommented(s + "\"" + rest, true) == s + "\"" + Uncommented(rest, false)
    decreases |s|
  {
    var text := s + "\"" + rest;
    if s == "" {
      assert text[1..] == rest && text[0] == '"' && text == "\"" + rest;
    } else {
      var n := if s[0] == '\\' then 2 else 1;
      PastUnit(s, n, rest);
      LiteralIsKept(s[n..], rest);
      InsideKept(text, n);
      hide Uncommented;
      Joined(s, n, rest);
    }
  }

  lemma Joined(s: string, n: nat, rest: string)
    requires n <= |s|
    ensures s[..n] + (s[n..] + "\"" + Uncommented(rest, false)) == s + "\"" + Uncommented(rest, false)
  {
    hide Uncommented;
  }

  lemma PastUnit(s: string, n: nat, rest: string)
    requires 0 < n <= |s|
    ensures var text := s + "\"" + rest;
      text[0] == s[0] && text[..n] == s[..n] && text[n..] == s[n..] + "\"" + rest
  {}

  lemma InsideKept(text: string, n: nat)
    requires n <= |text| && text != "" && (if text[0] == '\\' then n == 2 else n == 1 && text[0] != '"')
    ensures Uncommented(text, true) == text[..n] + Uncommented(text[n..], true)
  {
    assert n == 1 ==> text[..1] == [text[0]];
  }

  /** A comment goes, up to the end of its line and no further. */
  lemma CommentsGo(a: string, comment: string, rest: string)
    requires PlainCode(a) && (a == "" || a[|a| - 1] != '/')
    requires '\n' !in comment && (rest == "" || rest[0] == '\n')
    ensures Uncommented(a + ("//" + comment + rest), false) == a + Uncommented(rest, false)
  {
    var text := "//" + comment + rest;
    hide Uncommented, AfterComment, PlainCode;
    PlainIsKept(a, text);
    CommentEnds(comment, rest);
    assert text[2..] == comment + rest;
    CommentSkipped(text);
  }

  lemma CommentSkipped(text: string)
    requires StartsComment(text)
    ensures Uncommented(text, false) == Uncommented(AfterComment(text[2..]), false)
  {}

  lemma {:induction false} CommentEnds(comment: string, rest: string)
    requires '\n' !in comment && (rest == "" || rest[0] == '\n')
    ensures AfterComment(comment + rest) == rest
  {
    if comment == "" {
      assert comment + rest == rest;
    } else {
      assert (comment + rest)[1..] == comment[1..] + rest && comment[0] in comment;
      CommentEnds(comment[1..], rest);
    }
  }

  /** A string literal stays as it is, slashes and all, and the code goes on after it. */
  lemma LiteralsStay(a: string, s: string, rest: string)
    requires PlainCode(a) && LiteralBody(s)
    ensures Uncommented(a + ("\"" + (s + "\"" + rest)), false) == a + ("\"" + (s + "\"" + Uncommented(rest, false)))
  {
    var text := "\"" + (s + "\"" + rest);
    PlainIsKept(a, text);
    LiteralIsKept(s, rest);
    assert text[1..] == s + "\"" + rest && text[0] == '"';
    UncommentedPlain(text);
  }

  // -- braces ------------------------------------------------------------------------------------------

  /** How many more braces open than close. */
  function Net(s: string): int { Count(s, '{') - Count(s, '}') }

  function Count(s: string, c: char): int { multiset(s)[c] }

  lemma NetNext(c: char, s: string)
    ensures Net([c] + s) == Net(s) + if c == '{' then 1 else if c == '}' then -1 else 0
  {}

  /** Nothing closes before it opens, and in the end everything opened has closed. */
  ghost predicate Nested(s: string, depth: int) {
    depth + Net(s) == 0 && forall k | 0 <= k <= |s| :: depth + Net(s[..k]) >= 0
  }

  lemma NestedNext(s: string, depth: int)
    requires s != "" && depth >= 0
    ensures var next := depth + Net(s[..1]);
      Nested(s, depth) <==> next >= 0 && Nested(s[1..], next)
  {
    var c, rest := s[0], s[1..];
    assert s == [c] + rest && s[..1] == [c];
    NetNext(c, rest);
    NetNext(c, "");
    assert [c] + "" == [c];
    forall k | 0 <= k <= |rest| ensures s[..k + 1] == [c] + rest[..k] && Net(s[..k + 1]) == Net(rest[..k]) + Net([c]) {
      NetNext(c, rest[..k]);
    }
    if next: int :| next == depth + Net([c]) && next >= 0 && Nested(rest, next) {
      forall k | 0 <= k <= |s| ensures depth + Net(s[..k]) >= 0 {
        if k > 0 { assert s[..k] == [c] + rest[..k - 1]; } else { assert s[..0] == ""; }
      }
    }
    if Nested(s, depth) {
      assert depth + Net(s[..1]) >= 0;
      forall k | 0 <= k <= |rest| ensures depth + Net([c]) + Net(rest[..k]) >= 0 {
        assert depth + Net(s[..k + 1]) >= 0;
      }
    }
  }

  /** Without literals, a stretch is balanced exactly when its braces nest. */
  lemma {:induction false} BalancedIsNested(s: string, depth: nat)
    requires '"' !in s
    ensures Balanced(s, Lex(depth, false)) <==> Nested(s, depth)
  {
    if s == "" {
      assert s[..0] == "";
    } else {
      NestedNext(s, depth);
      var c := s[0];
      assert c in s && forall d | d in s[1..] :: d in s;
      assert s[..1] == [c] + "";
      NetNext(c, "");
      var next := Braces(c, Lex(depth, false));
      assert next == Lex(depth + Net(s[..1]), false);
      BalancedCases(s, Lex(depth, false));
      hide Balanced, Nested, Net;
      if next.depth >= 0 { BalancedIsNested(s[1..], next.depth); }
    }
  }

  /** Inside a literal nothing counts until its closing quote. */
  lemma {:induction false} BalancedAfterLiteral(s: string, rest: string, depth: nat)
    requires LiteralBody(s)
    ensures Balanced(s + "\"" + rest, Lex(depth, true)) <==> Balanced(rest, Lex(depth, false))
    decreases |s|
  {
    var text, lex := s + "\"" + rest, Lex(depth, true);
    BalancedCases(text, lex);
    if s == "" {
      assert text[1..] == rest && text[0] == '"';
    } else {
      var n := if s[0] == '\\' then 2 else 1;
      PastUnit(s, n, rest);
      assert Unit(text, lex) == n && Braces(text[0], lex) == lex;
      hide Balanced;
      BalancedAfterLiteral(s[n..], rest, depth);
    }
  }

  /** Braces inside a string literal do not count, escaped quotes or not: taking the literal out
      changes nothing. */
  lemma {:induction false} LiteralsDoNotCount(a: string, s: string, rest: string, depth: nat)
    requires '"' !in a && LiteralBody(s)
    ensures Balanced(a + ("\"" + (s + "\"" + rest)), Lex(depth, false)) <==> Balanced(a + rest, Lex(depth, false))
  {
    var text, lex := a + ("\"" + (s + "\"" + rest)), Lex(depth, false);
    BalancedCases(text, lex);
    if a == "" {
      assert a + rest == rest && text[1..] == s + "\"" + rest && text[0] == '"';
      BalancedAfterLiteral(s, rest, depth);
    } else {
      BalancedCases(a + rest, lex);
      assert text[0] == a[0] == (a + rest)[0] && a[0] in a && forall d | d in a[1..] :: d in a;
      assert text[1..] == a[1..] + ("\"" + (s + "\"" + rest)) && (a + rest)[1..] == a[1..] + rest;
      var next := Braces(a[0], lex);
      assert !next.inString && next == Lex(next.depth, false);
      hide Balanced, Braces;
      if next.depth >= 0 { LiteralsDoNotCount(a[1..], s, rest, next.depth); }
    }
  }

  /** A stretch that ends inside a literal is not balanced. */
  lemma {:induction false} OpenLiteralIsUnbalanced(a: string, s: string, depth: nat)
    requires '"' !in a && LiteralBody(s)
    ensures !Balanced(a + ("\"" + s), Lex(depth, false))
  {
    var text, lex := a + ("\"" + s), Lex(depth, false);
    BalancedCases(text, lex);
    if a == "" {
      assert text[1..] == s && text[0] == '"';
      InsideIsUnbalanced(s, depth);
    } else {
      assert text[0] == a[0] && a[0] in a && forall d | d in a[1..] :: d in a;
      assert text[1..] == a[1..] + ("\"" + s);
      var next := Braces(a[0], lex);
      assert next == Lex(next.depth, false);
      hide Balanced, Braces;
      if next.depth >= 0 { OpenLiteralIsUnbalanced(a[1..], s, next.depth); }
    }
  }

  lemma {:induction false} InsideIsUnbalanced(s: string, depth: nat)
    requires LiteralBody(s)
    ensures !Balanced(s, Lex(depth, true))
    decreases |s|
  {
    if s != "" {
      var lex, n := Lex(depth, true), if s[0] == '\\' then 2 else 1;
      BalancedCases(s, lex);
      assert Unit(s, lex) == n && Braces(s[0], lex) == lex;
      hide Balanced;
      InsideIsUnbalanced(s[n..], depth);
    }
  }

  // -- splitting -------------------------------------------------------------------------------------

  /** How many more brackets open than close, braces and parentheses alike. */
  function BracketNet(s: string): int { Count(s, '{') + Count(s, '(') - Count(s, '}') - Count(s, ')') }

  lemma BracketNetNext(c: char, s: string)
    ensures BracketNet([c] + s) == BracketNet(s) + if c in {'{', '('} then 1 else if c in {'}', ')'} then -1 else 0
  {}

  /** Brackets come out even, and the separator never stands outside them. */
  ghost predicate KeepsTogether(s: string, depth: int, sep: char) {
    depth + BracketNet(s) == 0 && forall k | 0 <= k < |s| && s[k] == sep :: depth + BracketNet(s[..k]) != 0
  }

  lemma KeepsNext(s: string, depth: int, sep: char)
    requires s != ""
    ensures var next := depth + BracketNet(s[..1]);
      KeepsTogether(s, depth, sep) <==> (s[0] == sep ==> depth != 0) && KeepsTogether(s[1..], next, sep)
  {
    var rest, next := s[1..], depth + BracketNet(s[..1]);
    PrefixNets(s);
    hide BracketNet;
    if KeepsTogether(rest, next, sep) && (s[0] == sep ==> depth != 0) {
      forall k | 0 <= k < |s| && s[k] == sep ensures depth + BracketNet(s[..k]) != 0 {
        if k > 0 { assert rest[k - 1] == sep; }
      }
    }
    if KeepsTogether(s, depth, sep) {
      forall k | 0 <= k < |rest| && rest[k] == sep ensures next + BracketNet(rest[..k]) != 0 {
        assert s[k + 1] == sep;
      }
      if s[0] == sep { assert depth + BracketNet(s[..0]) != 0; }
    }
  }

  lemma PrefixNets(s: string)
    requires s != ""
    ensures BracketNet(s[..0]) == 0 && BracketNet(s) == BracketNet(s[..1]) + BracketNet(s[1..])
    ensures forall k | 0 < k <= |s| :: BracketNet(s[..k]) == BracketNet(s[..1]) + BracketNet(s[1..][..k - 1])
  {
    var c, rest := s[0], s[1..];
    assert s == [c] + rest && s[..1] == [c] + "";
    BracketNetNext(c, rest);
    BracketNetNext(c, "");
    forall k | 0 < k <= |s| ensures BracketNet(s[..k]) == BracketNet(s[..1]) + BracketNet(rest[..k - 1]) {
      assert s[..k] == [c] + rest[..k - 1];
      BracketNetNext(c, rest[..k - 1]);
    }
  }

  /** Without literals, a piece is one piece exactly when its brackets come out even and the
      separator stands nowhere outside them. */
  lemma {:induction false} ClosedKeepsTogether(s: string, depth: int, sep: char)
    requires '"' !in s && Separates(sep)
    ensures Closed(s, Lex(depth, false), sep) <==> KeepsTogether(s, depth, sep)
  {
    if s != "" {
      KeepsNext(s, depth, sep);
      ClosedNext(s, depth, sep);
      assert forall d | d in s[1..] :: d in s;
      hide Closed, KeepsTogether, BracketNet;
      ClosedKeepsTogether(s[1..], depth + BracketNet(s[..1]), sep);
    }
  }

  lemma ClosedNext(s: string, depth: int, sep: char)
    requires s != "" && '"' !in s && Separates(sep)
    ensures Closed(s, Lex(depth, false), sep) <==>
      !(s[0] == sep && depth == 0) && Closed(s[1..], Lex(depth + BracketNet(s[..1]), false), sep)
  {
    var c, lex := s[0], Lex(depth, false);
    ClosedCases(s, lex, sep);
    hide Closed;
    assert c in s;
    assert s[..1] == [c] + "";
    BracketNetNext(c, "");
    hide BracketNet;
    assert Brackets(c, lex) == Lex(depth + BracketNet(s[..1]), false);
  }

  lemma {:induction false} ClosedAfterLiteral(s: string, rest: string, depth: int, sep: char)
    requires LiteralBody(s)
    ensures Closed(s + "\"" + rest, Lex(depth, true), sep) <==> Closed(rest, Lex(depth, false), sep)
    decreases |s|
  {
    var text, lex := s + "\"" + rest, Lex(depth, true);
    ClosedCases(text, lex, sep);
    if s == "" {
      assert text[1..] == rest && text[0] == '"';
    } else {
      var n := if s[0] == '\\' then 2 else 1;
      PastUnit(s, n, rest);
      assert Unit(text, lex) == n && Brackets(text[0], lex) == lex;
      hide Closed;
      ClosedAfterLiteral(s[n..], rest, depth, sep);
    }
  }

  /** Neither brackets nor separators inside a string literal count. */
  lemma {:induction false} LiteralsDoNotSplit(a: string, s: string, rest: string, depth: int, sep: char)
    requires '"' !in a && LiteralBody(s)
    ensures Closed(a + ("\"" + (s + "\"" + rest)), Lex(depth, false), sep) <==>
      Closed(a + rest, Lex(depth, false), sep)
  {
    var text, lex := a + ("\"" + (s + "\"" + rest)), Lex(depth, false);
    ClosedCases(text, lex, sep);
    if a == "" {
      assert a + rest == rest && text[1..] == s + "\"" + rest && text[0] == '"';
      ClosedAfterLiteral(s, rest, depth, sep);
    } else {
      ClosedCases(a + rest, lex, sep);
      assert text[0] == a[0] == (a + rest)[0] && a[0] in a && forall d | d in a[1..] :: d in a;
      assert text[1..] == a[1..] + ("\"" + (s + "\"" + rest)) && (a + rest)[1..] == a[1..] + rest;
      var next := Brackets(a[0], lex);
      assert next == Lex(next.depth, false);
      hide Closed, Brackets;
      LiteralsDoNotSplit(a[1..], s, rest, next.depth, sep);
    }
  }

  lemma {:induction false} OpenLiteralIsNotClosed(a: string, s: string, depth: int, sep: char)
    requires '"' !in a && LiteralBody(s)
    ensures !Closed(a + ("\"" + s), Lex(depth, false), sep)
  {
    var text, lex := a + ("\"" + s), Lex(depth, false);
    ClosedCases(text, lex, sep);
    if a == "" {
      assert text[1..] == s && text[0] == '"';
      InsideIsNotClosed(s, depth, sep);
    } else {
      assert text[0] == a[0] && a[0] in a && forall d | d in a[1..] :: d in a;
      assert text[1..] == a[1..] + ("\"" + s);
      var next := Brackets(a[0], lex);
      assert next == Lex(next.depth, false);
      hide Closed, Brackets;
      OpenLiteralIsNotClosed(a[1..], s, next.depth, sep);
    }
  }

  lemma {:induction false} InsideIsNotClosed(s: string, depth: int, sep: char)
    requires LiteralBody(s)
    ensures !Closed(s, Lex(depth, true), sep)
    decreases |s|
  {
    if s != "" {
      var lex, n := Lex(depth, true), if s[0] == '\\' then 2 else 1;
      ClosedCases(s, lex, sep);
      assert Unit(s, lex) == n && Brackets(s[0], lex) == lex;
      hide Closed;
      InsideIsNotClosed(s[n..], depth, sep);
    }
  }

  /** The parts a caller gets are the pieces without the blanks at their ends, but for those that
      are nothing but blanks. */
  lemma {:induction false} TrimsAre(pieces: seq<string>, part: string)
    ensures part in Trims(pieces) <==> part != "" && exists i | 0 <= i < |pieces| :: Strip(pieces[i]) == part
  {
    hide Strip;
    if pieces != [] {
      var init := pieces[..|pieces| - 1];
      TrimsLast(pieces);
      hide Trims;
      TrimsAre(init, part);
      assert forall i | 0 <= i < |init| :: init[i] == pieces[i];
    }
  }

  /** Text that does not end in a backslash can always be split. */
  lemma {:induction false} SplitsUnlessItEndsInABackslash(text: string, lex: Lex, sep: char)
    requires text == "" || text[|text| - 1] != '\\'
    ensures Pieces(text, lex, sep).Some?
    decreases |text|
  {
    if text != "" {
      PiecesCases(text, lex, sep);
      var n := Unit(text, lex);
      hide Pieces, Brackets, Unit;
      SplitsUnlessItEndsInABackslash(text[1..], TOP, sep);
      SplitsUnlessItEndsInABackslash(text[n..], Brackets(text[0], lex), sep);
    }
  }

  /** And text that ends in one cannot when that stands in a literal and escapes nothing. */
  lemma {:induction false} OpenEscapeIsNotSplit(a: string, s: string, depth: int, sep: char)
    requires '"' !in a && LiteralBody(s)
    ensures Pieces(a + ("\"" + (s + "\\")), Lex(depth, false), sep) == None
    decreases |a|
  {
    var text, lex := a + ("\"" + (s + "\\")), Lex(depth, false);
    PiecesCases(text, lex, sep);
    if a == "" {
      assert text[1..] == s + "\\" && text[0] == '"';
      InsideIsNotSplit(s, depth, sep);
    } else {
      assert text[0] == a[0] && a[0] in a && forall d | d in a[1..] :: d in a;
      assert text[1..] == a[1..] + ("\"" + (s + "\\"));
      var next := Brackets(a[0], lex);
      assert next == Lex(next.depth, false) && Unit(text, lex) == 1;
      hide Pieces, Brackets;
      OpenEscapeIsNotSplit(a[1..], s, next.depth, sep);
    }
  }

  lemma {:induction false} InsideIsNotSplit(s: string, depth: int, sep: char)
    requires LiteralBody(s)
    ensures Pieces(s + "\\", Lex(depth, true), sep) == None
    decreases |s|
  {
    var text, lex := s + "\\", Lex(depth, true);
    PiecesCases(text, lex, sep);
    if s != "" {
      var n := if s[0] == '\\' then 2 else 1;
      assert text[0] == s[0];
      assert text[n..] == s[n..] + "\\";
      assert Unit(text, lex) == n && Brackets(text[0], lex) == lex;
      hide Pieces;
      InsideIsNotSplit(s[n..], depth, sep);
    }
  }
}
