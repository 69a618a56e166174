/** What the tail takes for a line. */
module TailLines {
  import opened TailValues

  predicate OneLine(line: seq<byte>) { 10 !in line && 13 !in line }

  /** A line feed, a carriage return, or both as one end a line; a carriage return with a line
      feed after it does not end one alone. */
  lemma BreaksEndLines(line: seq<byte>, ending: seq<byte>, rest: seq<byte>)
    requires OneLine(line) && (ending == [10] || ending == [13, 10] || ending == [13])
    requires ending == [13] && rest != [] ==> rest[0] != 10
    ensures SplitLines(line + ending + rest) == [line] + SplitLines(rest)
  {
    var data, k := line + ending + rest, |line|;
    assert data[k] == ending[0] && forall i | 0 <= i < k :: data[i] in line;
    assert Break(data) == k;
    assert |ending| == 2 ==> data[k + 1] == ending[1];
    assert AfterBreak(data, k) == k + |ending|;
    assert data[..k] == line && data[k + |ending|..] == rest;
  }

  /** What is left without a break is a line too, unless it is empty. */
  lemma TheRestIsALine(line: seq<byte>)
    requires OneLine(line)
    ensures SplitLines(line) == if line == [] then [] else [line]
  {
    var k := Break(line);
    assert forall i | 0 <= i < |line| :: line[i] in line;
  }

  lemma {:induction false} NonEmptyAre(lines: seq<seq<byte>>)
    ensures forall line :: line in NonEmpty(lines) <==> line in lines && line != []
  {
    if lines != [] { NonEmptyAre(lines[1..]); }
  }

  /** Some byte of the line is neither a space nor one of the five blanks from tab to return. */
  predicate Visible(line: seq<byte>) { exists i | 0 <= i < |line| :: line[i] != 32 && (line[i] < 9 || 13 < line[i]) }

  lemma VisibleIs(line: seq<byte>)
    ensures Visible(line) <==> !Blank(line)
  {
    if !Blank(line) {
      var b :| b in line && !IsBlankByte(b);
      var i :| 0 <= i < |line| && line[i] == b;
    }
    if Visible(line) {
      var i :| 0 <= i < |line| && line[i] != 32 && (line[i] < 9 || 13 < line[i]);
      assert line[i] in line;
    }
  }

  /** The lines that are not blank are those with something visible in them. */
  lemma {:induction false} NonBlankAre(lines: seq<seq<byte>>)
    ensures forall line :: line in NonBlank(lines) <==> line in lines && Visible(line)
  {
    hide Visible, Blank;
    if lines != [] {
      VisibleIs(lines[0]);
      NonBlankAre(lines[1..]);
    }
  }

  /** No line handed on is empty, and none is anything but a whole line of the data; and every
      one that is not empty is handed on when there is one that is not blank. */
  lemma YieldsItsLines(data: seq<byte>)
    ensures var whole := SplitLines(data[..Complete(data)]);
      && (forall line | line in Yield(data) :: line in whole && line != [])
      && (Visible(data[..Complete(data)]) ==> forall line | line in whole && line != [] :: line in Yield(data))
  {
    var whole := data[..Complete(data)];
    NonEmptyAre(SplitLines(whole));
    VisibleIs(whole);
    assert data != [] && data[|data| - 1] == LF ==> whole == data;
  }
}
