/** The text of an ini file: splitting it into lines and joining lines back into it. */
module FileText {

  /** What ends a line on reading; "\r\n" counts as one break. */
  predicate IsBreak(c: char) {
    '\n' <= c <= '\r' || '\U{1c}' <= c <= '\U{1e}' || c == '\U{85}' || c == '\U{2028}' || c == '\U{2029}'
  }

  predicate Single(s: string) { forall c | c in s :: !IsBreak(c) }

  predicate AllSingle(lines: seq<string>) { forall line | line in lines :: Single(line) }

  /** Where the first line of the text ends. */
  function LineLength(text: string): (n: nat)
    ensures n <= |text| && Single(text[..n])
    ensures n < |text| ==> IsBreak(text[n])
  {
    if text == "" || IsBreak(text[0]) then 0
    else
      var n := 1 + LineLength(text[1..]);
      assert text[..n] == [text[0]] + text[1..][..n - 1];
      n
  }

  /** How many characters the break at `i` takes. */
  function BreakLength(text: string, i: nat): nat
    requires i < |text|
  {
    if text[i] == '\r' && i + 1 < |text| && text[i + 1] == '\n' then 2 else 1
  }

  function SplitText(text: string): seq<string> {
    if text == "" then []
    else
      var n := LineLength(text);
      if n == |text| then [text] else [text[..n]] + SplitText(text[n + BreakLength(text, n)..])
  }

  function Ended(lines: seq<string>, newline: string): string {
    if lines == [] then "" else lines[0] + newline + Ended(lines[1..], newline)
  }

  /** The lines joined by `newline`, with one more at the end. */
  function JoinText(lines: seq<string>, newline: string): string {
    if lines == [] then newline else Ended(lines, newline)
  }

  predicate IsNewline(newline: string) { newline == "\n" || newline == "\r\n" }

  /** "\r\n" for a file that uses it anywhere. */
  function DetectNewline(text: string): (newline: string)
    ensures IsNewline(newline)
  {
    if exists i | 0 <= i < |text| - 1 :: text[i] == '\r' && text[i + 1] == '\n' then "\r\n" else "\n"
  }

  lemma {:induction false} SplitGivesSingles(text: string)
    ensures AllSingle(SplitText(text))
  {
    hide Single;
    if text != "" {
      var n := LineLength(text);
      if n < |text| { SplitGivesSingles(text[n + BreakLength(text, n)..]); } else { assert text[..n] == text; }
    }
  }

  lemma LineLengthIs(line: string, rest: string)
    requires Single(line) && rest != "" && IsBreak(rest[0])
    ensures LineLength(line + rest) == |line|
  {
    var n := LineLength(line + rest);
    assert (line + rest)[|line|] == rest[0];
    assert forall i | 0 <= i < |line| :: (line + rest)[i] in line;
    assert forall i | 0 <= i < n :: (line + rest)[i] in (line + rest)[..n];
  }

  lemma SplitFirst(line: string, newline: string, rest: string)
    requires Single(line) && IsNewline(newline)
    ensures SplitText(line + newline + rest) == [line] + SplitText(rest)
  {
    hide Single, LineLength;
    var text := line + newline + rest;
    assert text == line + (newline + rest);
    LineLengthIs(line, newline + rest);
    assert text[|line| + |newline|..] == rest && text[..|line|] == line;
    assert text[|line|] == newline[0] && |newline| == 2 ==> text[|line| + 1] == '\n';
  }

  lemma {:induction false} EndedSplits(lines: seq<string>, newline: string)
    requires AllSingle(lines) && IsNewline(newline)
    ensures SplitText(Ended(lines, newline)) == lines
  {
    hide Single, SplitText;
    if lines == [] {
      EmptySplits();
    } else {
      assert forall line | line in lines[1..] :: line in lines;
      EndedSplits(lines[1..], newline);
      SplitFirst(lines[0], newline, Ended(lines[1..], newline));
    }
  }

  lemma EmptyIsSingle()
    ensures Single("")
  {}

  lemma EmptySplits()
    ensures SplitText("") == []
  {}

  /** A written list of lines is the list read back, exactly when it is not empty and no line
      holds a break of its own. */
  lemma JoinedLinesReadBack(lines: seq<string>, newline: string)
    requires IsNewline(newline)
    ensures SplitText(JoinText(lines, newline)) == lines <==> lines != [] && AllSingle(lines)
  {
    hide Single, SplitText;
    if lines == [] {
      EmptyIsSingle();
      SplitFirst("", newline, "");
      assert "" + newline + "" == newline;
    } else if AllSingle(lines) {
      EndedSplits(lines, newline);
    }
    SplitGivesSingles(JoinText(lines, newline));
  }
}
