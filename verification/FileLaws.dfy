/** Where a section stands in its file, what separates lines, and which newline a file keeps. */
module FileLaws {
  import opened Text
  import opened EqIni
  import opened FileText
  import opened SocialValues
  import opened SocialLines
  import opened SocialWriter
  import opened SocialFiles

  // -- sections ------------------------------------------------------------------------------

  /** The line is the section's header, in any case, with or without blanks around it. */
  predicate Heads(line: string, name: string) { Lower(Strip(line)) == "[" + Lower(name) + "]" }

  predicate Opens(line: string) { Strip(line) != "" && Strip(line)[0] == '[' }

  lemma HeadsIs(line: string, name: string)
    ensures Heads(line, name) <==> IsHeader(line, name)
  {
    hide Lower, Strip;
    LowerAppend("[", name);
    LowerAppend("[" + name, "]");
    LowerBrackets();
    assert "[" + name + "]" == Header(name);
  }

  lemma LowerBrackets()
    ensures Lower("[") == "[" && Lower("]") == "]"
  {}

  /** `header` is the first line that heads the section, and `body` goes on to the next line
      that opens one, or to the end. */
  ghost predicate StandsIn(before: seq<string>, header: string, body: seq<string>, after: seq<string>, name: string) {
    && (forall line | line in before :: !Heads(line, name)) && Heads(header, name)
    && (forall line | line in body :: !Opens(line)) && (after != [] ==> Opens(after[0]))
  }

  /** A section is what stands between its header and the next, and replacing it changes that and
      nothing else of the file, the header as it was written included. */
  lemma SectionStandsInItsFile(before: seq<string>, header: string, body: seq<string>, after: seq<string>,
          name: string, new_: seq<string>)
    requires StandsIn(before, header, body, after, name)
    ensures var lines := before + [header] + body + after;
      && SectionBody(lines, name) == body
      && ReplaceSection(lines, name, new_) == before + [header] + new_ + after
  {
    hide IsHeader, OpensSection, Strip, Lower, HeaderIndex, SectionEnd, Header, Heads, Opens;
    var lines, at := before + [header] + body + after, |before|;
    var stop := at + 1 + |body|;
    HeadsIs(header, name);
    forall j | 0 <= j < at ensures !IsHeader(lines[j], name) {
      assert lines[j] == before[j] && before[j] in before;
      HeadsIs(before[j], name);
    }
    forall line ensures Opens(line) <==> OpensSection(line) { OpensIs(line); }
    forall j | at < j < stop ensures !OpensSection(lines[j]) {
      assert lines[j] == body[j - at - 1] && body[j - at - 1] in body;
    }
    assert after != [] ==> lines[stop] == after[0];
    HeaderIndexIs(lines, name, at);
    SectionEndIs(lines, at + 1, stop);
    assert lines[at + 1..stop] == body && lines[..at + 1] == before + [header] && lines[stop..] == after;
  }

  lemma OpensIs(line: string)
    ensures Opens(line) <==> OpensSection(line)
  {}

  /** A section that is not there reads as nothing, and is written after all the lines there are,
      set off by one blank line unless the file is empty or ends in one. */
  lemma MissingSectionIsAppended(lines: seq<string>, name: string, new_: seq<string>)
    requires forall line | line in lines :: !Heads(line, name)
    ensures SectionBody(lines, name) == []
    ensures ReplaceSection(lines, name, new_) ==
      lines + (if lines == [] || Strip(lines[|lines| - 1]) == "" then [] else [""]) + ["[" + name + "]"] + new_
  {
    hide IsHeader, Strip, Lower, HeaderIndex, Heads;
    forall j | 0 <= j < |lines| ensures !IsHeader(lines[j], name) {
      assert lines[j] in lines;
      HeadsIs(lines[j], name);
    }
    NoBody(lines, name);
  }

  // -- lines -----------------------------------------------------------------------------------

  /** What Python's splitlines takes for the end of a line. */
  const BREAKS := ['\n', '\U{0b}', '\U{0c}', '\r', '\U{1c}', '\U{1d}', '\U{1e}', '\U{85}', '\U{2028}', '\U{2029}']

  lemma BreaksAre(c: char)
    ensures IsBreak(c) <==> c in BREAKS
  {
    if '\n' <= c <= '\r' { assert c == '\n' || c == '\U{0b}' || c == '\U{0c}' || c == '\r'; }
    if '\U{1c}' <= c <= '\U{1e}' { assert c == '\U{1c}' || c == '\U{1d}' || c == '\U{1e}'; }
  }

  predicate NoBreaks(line: string) { forall c | c in line :: c !in BREAKS }

  lemma NoBreaksIs(line: string)
    ensures NoBreaks(line) <==> Single(line)
  {
    forall c ensures IsBreak(c) <==> c in BREAKS { BreaksAre(c); }
  }

  /** Each of them ends a line, "\r\n" as one, and what is left without one is a line too. */
  lemma TextSplits(line: string, ending: string, rest: string)
    requires NoBreaks(line) && (ending == "\r\n" || (|ending| == 1 && ending[0] in BREAKS))
    requires ending == "\r" && rest != "" ==> rest[0] != '\n'
    ensures SplitText(line + ending + rest) == [line] + SplitText(rest)
    ensures SplitText(line) == if line == "" then [] else [line]
  {
    hide Single, LineLength;
    var text := line + ending + rest;
    assert text == line + (ending + rest);
    NoBreaksIs(line);
    BreaksAre(ending[0]);
    LineLengthIs(line, ending + rest);
    assert text[|line|] == ending[0] && (|ending| == 2 ==> text[|line| + 1] == '\n');
    assert text[|line| + |ending|..] == rest && text[..|line|] == line;
    assert |ending| == 1 && rest != "" ==> text[|line| + 1] == rest[0];
    assert BreakLength(text, |line|) == |ending|;
    WholeLine(line);
  }

  lemma WholeLine(line: string)
    requires Single(line)
    ensures LineLength(line) == |line|
  {
    var n := LineLength(line);
    assert forall i | 0 <= i < |line| :: line[i] in line;
  }

  /** A file's socials are what stands under [Socials], and a write changes those lines alone. */
  lemma SocialsStandInTheirFile(text: string, before: seq<string>, header: string, body: seq<string>,
          after: seq<string>, socials: seq<Social>, clear: bool)
    requires SplitText(text) == before + [header] + body + after && StandsIn(before, header, body, after, "Socials")
    requires AllOneLiners(Cleaned(body, socials))
    ensures ReadFile(text) == Read(body)
    ensures SplitText(WriteFile(text, socials, clear)) == before + [header] + WriteBody(body, socials, clear) + after
  {
    hide Cleaned, WriteBody, WriteFile, OneLiners, SectionBody, SplitText, ReplaceSection, StandsIn, Read;
    SectionStandsInItsFile(before, header, body, after, "Socials", WriteBody(body, socials, clear));
    assert FileBody(text) == body;
    FileHoldsWhatWasWritten(text, socials, clear);
  }

  // -- newlines ----------------------------------------------------------------------------------

  predicate CrLfAt(text: string, i: int) { 0 <= i < |text| - 1 && text[i] == '\r' && text[i + 1] == '\n' }

  ghost predicate HasCrLf(text: string) { exists i :: CrLfAt(text, i) }

  /** Carriage returns and line feeds only come in pairs. */
  ghost predicate OnlyCrLf(text: string) {
    && (forall i | 0 <= i < |text| && text[i] == '\n' :: CrLfAt(text, i - 1))
    && (forall i | 0 <= i < |text| && text[i] == '\r' :: CrLfAt(text, i))
  }

  lemma SingleHasNone(line: string)
    requires Single(line)
    ensures forall i | 0 <= i < |line| :: line[i] != '\r' && line[i] != '\n'
  {
    assert forall i | 0 <= i < |line| :: line[i] in line;
  }

  lemma CrLfFirst(line: string, rest: string)
    requires Single(line) && OnlyCrLf(rest)
    ensures OnlyCrLf(line + "\r\n" + rest) && HasCrLf(line + "\r\n" + rest)
  {
    hide Single;
    SingleHasNone(line);
    var text, n := line + "\r\n" + rest, |line|;
    assert CrLfAt(text, n);
    assert forall i | 0 <= i < |rest| :: text[n + 2 + i] == rest[i];
    forall i | 0 <= i < |text| && text[i] == '\n' ensures CrLfAt(text, i - 1) {
      if i >= n + 2 { assert CrLfAt(rest, i - n - 3); }
    }
    forall i | 0 <= i < |text| && text[i] == '\r' ensures CrLfAt(text, i) {
      if i >= n + 2 { assert CrLfAt(rest, i - n - 2); }
    }
  }

  lemma {:induction false} EndedInCrLf(lines: seq<string>)
    requires AllSingle(lines)
    ensures OnlyCrLf(Ended(lines, "\r\n")) && (lines != [] ==> HasCrLf(Ended(lines, "\r\n")))
  {
    hide Single, OnlyCrLf, HasCrLf;
    if lines == [] {
      NothingHasBreaks();
    } else {
      assert lines[0] in lines && forall line | line in lines[1..] :: line in lines;
      EndedInCrLf(lines[1..]);
      CrLfFirst(lines[0], Ended(lines[1..], "\r\n"));
    }
  }

  lemma NothingHasBreaks()
    ensures OnlyCrLf("")
  {}

  lemma {:induction false} EndedInLf(lines: seq<string>)
    requires AllSingle(lines)
    ensures '\r' !in Ended(lines, "\n")
  {
    hide Single;
    if lines != [] {
      assert lines[0] in lines && forall line | line in lines[1..] :: line in lines;
      EndedInLf(lines[1..]);
      SingleHasNone(lines[0]);
    }
  }

  lemma DetectIs(text: string)
    ensures HasCrLf(text) ==> DetectNewline(text) == "\r\n"
    ensures !HasCrLf(text) ==> DetectNewline(text) == "\n"
  {
    if HasCrLf(text) { var i :| CrLfAt(text, i); }
    if i: int :| 0 <= i < |text| - 1 && text[i] == '\r' && text[i + 1] == '\n' { assert CrLfAt(text, i); }
  }

  /** Lines joined for a file that had "\r\n" anywhere end in "\r\n" throughout, and for any other
      file there is no carriage return at all. */
  lemma JoinedNewlines(text: string, lines: seq<string>)
    requires AllSingle(lines)
    ensures var after := JoinText(lines, DetectNewline(text));
      if HasCrLf(text) then OnlyCrLf(after) && HasCrLf(after) else '\r' !in after
  {
    DetectIs(text);
    EndedInCrLf(lines);
    EndedInLf(lines);
    hide OnlyCrLf, HasCrLf, Ended;
    if lines == [] && HasCrLf(text) {
      NothingHasBreaks();
      EmptyIsSingle();
      CrLfFirst("", "");
      assert "" + "\r\n" + "" == "\r\n";
    }
  }

  /** A write keeps a file's newline: a file that had "\r\n" anywhere has nothing else after, and
      one that had none gets none. */
  lemma NewlinesStay(text: string, socials: seq<Social>, clear: bool)
    requires AllOneLiners(Cleaned(FileBody(text), socials))
    ensures var after := WriteFile(text, socials, clear);
      if HasCrLf(text) then OnlyCrLf(after) && HasCrLf(after) else '\r' !in after
  {
    hide Single, Cleaned, WriteBody, SplitText, AllSingle, SectionBody, ReplaceSection, OneLiners, JoinText, HasCrLf,
      OnlyCrLf, DetectNewline;
    var lines := SplitText(text);
    SplitGivesSingles(text);
    BodySingle(lines, SECTION);
    WriteBodySingle(FileBody(text), socials, clear);
    HeaderSingle();
    ReplacedSingle(lines, SECTION, WriteBody(FileBody(text), socials, clear));
    JoinedNewlines(text, WrittenLines(text, socials, clear));
  }
}
