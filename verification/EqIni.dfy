/**
 The client's ini files: sections as a lens over the list of lines, Key=Value lines, and
 the text of the file around them.
 */
module EqIni {
  import opened Options
  import opened Text

  // -- sections --------------------------------------------------------------------------

  function Header(name: string): string { "[" + name + "]" }

  predicate IsHeader(line: string, name: string) {
    Lower(Strip(line)) == Lower(Header(name))
  }

  /** Any line whose first visible character opens a header. */
  predicate OpensSection(line: string) {
    var t := Strip(line);
    t != "" && t[0] == '['
  }

  /** The first line at or after `from` that `holds`, or |lines|. */
  function FirstFrom(lines: seq<string>, holds: string -> bool, from: nat): (i: nat)
    requires from <= |lines|
    ensures from <= i <= |lines|
    ensures i < |lines| ==> holds(lines[i])
    ensures forall j | from <= j < i :: !holds(lines[j])
    decreases |lines| - from
  {
    if from == |lines| || holds(lines[from]) then from else FirstFrom(lines, holds, from + 1)
  }

  /** The first line headed `name`, or |lines|. */
  function HeaderIndex(lines: seq<string>, name: string): (i: nat)
    ensures i <= |lines|
    ensures i < |lines| ==> IsHeader(lines[i], name)
    ensures forall j | 0 <= j < i :: !IsHeader(lines[j], name)
  {
    FirstFrom(lines, line => IsHeader(line, name), 0)
  }

  /** The first line at or after `from` that opens a section, or |lines|. */
  function SectionEnd(lines: seq<string>, from: nat): (i: nat)
    requires from <= |lines|
    ensures from <= i <= |lines|
    ensures i < |lines| ==> OpensSection(lines[i])
    ensures forall j | from <= j < i :: !OpensSection(lines[j])
  {
    FirstFrom(lines, OpensSection, from)
  }

  predicate HasSection(lines: seq<string>, name: string) { HeaderIndex(lines, name) < |lines| }

  method SectionBounds(lines: seq<string>, name: string) returns (bounds: Option<(nat, nat)>)
    ensures bounds == if HasSection(lines, name)
      then Some((HeaderIndex(lines, name), SectionEnd(lines, HeaderIndex(lines, name) + 1))) else None
  {
    hide IsHeader, OpensSection;
    var start := -1;
    for i := 0 to |lines|
      invariant -1 <= start < i
      invariant start < 0 ==> forall j | 0 <= j < i :: !IsHeader(lines[j], name)
      invariant start >= 0 ==> start == HeaderIndex(lines, name)
      invariant start >= 0 ==> forall j | start < j < i :: !OpensSection(lines[j])
    {
      if start < 0 {
        if IsHeader(lines[i], name) { start := i; }
      } else if OpensSection(lines[i]) {
        return Some((start, i));
      }
    }
    return if start < 0 then None else Some((start, |lines|));
  }

  /** The lines inside the section, or none when it is missing. */
  function SectionBody(lines: seq<string>, name: string): seq<string> {
    var start := HeaderIndex(lines, name);
    if start == |lines| then [] else lines[start + 1..SectionEnd(lines, start + 1)]
  }

  /** The separating blank line, when there is a last line to separate from. */
  function Separator(lines: seq<string>): seq<string> {
    if lines != [] && Strip(lines[|lines| - 1]) != "" then [""] else []
  }

  function ReplaceSection(lines: seq<string>, name: string, body: seq<string>): seq<string> {
    var start := HeaderIndex(lines, name);
    if start < |lines| then lines[..start + 1] + body + lines[SectionEnd(lines, start + 1)..]
    else lines + Separator(lines) + [Header(name)] + body
  }

  // -- the lens laws -----------------------------------------------------------------------

  ghost predicate NoHeaders(body: seq<string>) {
    forall line | line in body :: !OpensSection(line)
  }

  /** The header index is the one position with the property that defines it. */
  lemma HeaderIndexIs(lines: seq<string>, name: string, i: nat)
    requires i <= |lines| && (i < |lines| ==> IsHeader(lines[i], name))
    requires forall j | 0 <= j < i :: !IsHeader(lines[j], name)
    ensures HeaderIndex(lines, name) == i
  {
    hide IsHeader;
  }

  lemma SectionEndIs(lines: seq<string>, from: nat, i: nat)
    requires from <= i <= |lines| && (i < |lines| ==> OpensSection(lines[i]))
    requires forall j | from <= j < i :: !OpensSection(lines[j])
    ensures SectionEnd(lines, from) == i
  {
    hide OpensSection;
  }

  lemma HeaderIsHeader(name: string)
    ensures IsHeader(Header(name), name) && OpensSection(Header(name))
  {
    hide Strip, Lower;
    var header := Header(name);
    assert header[0] == '[' && header[|header| - 1] == ']';
    StripTrimmed(header);
  }

  lemma HeaderOpens(line: string, name: string)
    requires IsHeader(line, name)
    ensures OpensSection(line)
  {
    hide Strip;
    assert Lower(Header(name))[0] == '[';
  }

  lemma HeaderNamesOne(line: string, name: string, other: string)
    requires IsHeader(line, name) && IsHeader(line, other)
    ensures Lower(Header(name)) == Lower(Header(other))
  {
    hide Strip, Lower, Header;
  }

  /** Where the section is once it has been written. */
  lemma ReplacedAt(lines: seq<string>, name: string, body: seq<string>) returns (start: nat)
    requires NoHeaders(body)
    ensures var r := ReplaceSection(lines, name, body);
      && HeaderIndex(r, name) == start < |r|
      && SectionEnd(r, start + 1) == start + 1 + |body|
      && r[start + 1..start + 1 + |body|] == body
      && (HasSection(lines, name) ==> start == HeaderIndex(lines, name))
      && (!HasSection(lines, name) ==> start == |lines + Separator(lines)|)
  {
    hide IsHeader, OpensSection, Strip, Lower, HeaderIndex, SectionEnd;
    var r := ReplaceSection(lines, name, body);
    var at := HeaderIndex(lines, name);
    HeaderIsHeader(name);
    if at < |lines| {
      start := at;
    } else {
      start := |lines + Separator(lines)|;
      SeparatorIsBlank(lines, name);
    }
    HeaderIndexIs(r, name, start);
    SectionEndIs(r, start + 1, start + 1 + |body|);
  }

  lemma SeparatorIsBlank(lines: seq<string>, name: string)
    ensures forall line | line in Separator(lines) :: !IsHeader(line, name) && !OpensSection(line) && Strip(line) == ""
  {
    StripTrimmed("");
  }

  /** Put-get: the body read back is the body written, exactly when no line of it opens a section. */
  lemma PutGet(lines: seq<string>, name: string, body: seq<string>)
    ensures SectionBody(ReplaceSection(lines, name, body), name) == body <==> NoHeaders(body)
  {
    hide IsHeader, OpensSection, Strip, Lower, HeaderIndex, SectionEnd, ReplaceSection;
    var r := ReplaceSection(lines, name, body);
    if NoHeaders(body) { var start := ReplacedAt(lines, name, body); }
    assert NoHeaders(SectionBody(r, name)) by { SectionBodyHasNoHeaders(r, name); }
  }

  lemma SectionBodyHasNoHeaders(lines: seq<string>, name: string)
    ensures NoHeaders(SectionBody(lines, name))
  {
    hide IsHeader, OpensSection, Strip, Lower, HeaderIndex, SectionEnd;
  }

  /** Get-put, for a section that is there. */
  lemma GetPut(lines: seq<string>, name: string)
    requires HasSection(lines, name)
    ensures ReplaceSection(lines, name, SectionBody(lines, name)) == lines
  {
    hide IsHeader, OpensSection, Strip, Lower, HeaderIndex, SectionEnd;
    var start := HeaderIndex(lines, name);
    var end := SectionEnd(lines, start + 1);
    assert lines == lines[..start + 1] + lines[start + 1..end] + lines[end..];
  }

  /** Put-put: only the last body written counts, so writing twice is writing once. */
  lemma PutPut(lines: seq<string>, name: string, first: seq<string>, second: seq<string>)
    requires NoHeaders(first)
    ensures ReplaceSection(ReplaceSection(lines, name, first), name, second) == ReplaceSection(lines, name, second)
  {
    hide IsHeader, OpensSection, Strip, Lower, HeaderIndex, SectionEnd;
    var r := ReplaceSection(lines, name, first);
    var start := ReplacedAt(lines, name, first);
    if HasSection(lines, name) {
      var end := SectionEnd(lines, start + 1);
      assert r[..start + 1] == lines[..start + 1] && r[start + 1 + |first|..] == lines[end..];
    } else {
      assert r[..start + 1] == lines + Separator(lines) + [Header(name)] && r[start + 1 + |first|..] == [];
    }
  }

  /** What writing section `name` adds to section `other`: the separating blank line, when
      `name` had to be appended and `other` was last. */
  ghost function Added(lines: seq<string>, name: string, other: string): seq<string> {
    if !HasSection(lines, name) && HasSection(lines, other) &&
      SectionEnd(lines, HeaderIndex(lines, other) + 1) == |lines|
    then Separator(lines) else []
  }

  /** A section by any other name keeps its body, but for the one blank line that separates
      it from a section appended after it. */
  lemma OthersKept(lines: seq<string>, name: string, body: seq<string>, other: string)
    requires NoHeaders(body) && Lower(Header(other)) != Lower(Header(name))
    ensures SectionBody(ReplaceSection(lines, name, body), other) ==
      SectionBody(lines, other) + Added(lines, name, other)
  {
    hide IsHeader, OpensSection, Strip, Lower, HeaderIndex, SectionEnd;
    if HasSection(lines, name) { OthersKeptInPlace(lines, name, body, other); }
    else { OthersKeptOnAppend(lines, name, body, other); }
  }

  lemma BodyIs(lines: seq<string>, name: string, at: nat, stop: nat)
    requires at < stop <= |lines| && IsHeader(lines[at], name) && (stop < |lines| ==> OpensSection(lines[stop]))
    requires forall j | 0 <= j < at :: !IsHeader(lines[j], name)
    requires forall j | at < j < stop :: !OpensSection(lines[j])
    ensures HeaderIndex(lines, name) == at && SectionBody(lines, name) == lines[at + 1..stop]
  {
    hide IsHeader, OpensSection, HeaderIndex, SectionEnd;
    HeaderIndexIs(lines, name, at);
    SectionEndIs(lines, at + 1, stop);
  }

  lemma NoBody(lines: seq<string>, name: string)
    requires forall j | 0 <= j < |lines| :: !IsHeader(lines[j], name)
    ensures HeaderIndex(lines, name) == |lines| && SectionBody(lines, name) == []
  {
    hide IsHeader, OpensSection, HeaderIndex, SectionEnd;
    HeaderIndexIs(lines, name, |lines|);
  }

  lemma OthersKeptInPlace(lines: seq<string>, name: string, body: seq<string>, other: string)
    requires NoHeaders(body) && Lower(Header(other)) != Lower(Header(name)) && HasSection(lines, name)
    ensures SectionBody(ReplaceSection(lines, name, body), other) == SectionBody(lines, other)
  {
    hide IsHeader, OpensSection, Strip, Lower, HeaderIndex, SectionEnd, Header, Splice, SectionBody, NoHeaders;
    var start := HeaderIndex(lines, name);
    var end := SectionEnd(lines, start + 1);
    HeaderOpens(lines[start], name);
    forall line | IsHeader(line, other) ensures OpensSection(line) { HeaderOpens(line, other); }
    if IsHeader(lines[start], other) { HeaderNamesOne(lines[start], name, other); }
    SpliceIs(lines, body, start + 1, end);
    Spliced(lines, body, start + 1, end, other, lines[..start + 1] + body + lines[end..]);
  }

  /** `r` is `lines` with the stretch from `from` to `end` swapped for `body`. */
  ghost predicate Splice(lines: seq<string>, body: seq<string>, from: nat, end: nat, r: seq<string>)
    requires from <= end <= |lines|
  {
    && |r| == |lines| + |body| - (end - from)
    && (forall j | 0 <= j < from :: r[j] == lines[j])
    && (forall j | from <= j < from + |body| :: r[j] in body)
    && (forall j | from + |body| <= j < |r| :: r[j] == lines[j - |body| + (end - from)])
  }

  lemma SpliceIs(lines: seq<string>, body: seq<string>, from: nat, end: nat)
    requires from <= end <= |lines|
    ensures Splice(lines, body, from, end, lines[..from] + body + lines[end..])
  {}

  /** Swapping one stretch without headers for another moves the other sections whole. */
  lemma Spliced(lines: seq<string>, body: seq<string>, from: nat, end: nat, other: string, r: seq<string>)
    requires 0 < from <= end <= |lines| && NoHeaders(body) && Splice(lines, body, from, end, r)
    requires forall j | from <= j < end :: !OpensSection(lines[j])
    requires forall line | IsHeader(line, other) :: OpensSection(line)
    requires OpensSection(lines[from - 1]) && !IsHeader(lines[from - 1], other)
    requires end < |lines| ==> OpensSection(lines[end])
    ensures SectionBody(r, other) == SectionBody(lines, other)
  {
    hide IsHeader, OpensSection, Strip, Lower, HeaderIndex, SectionEnd, Header, SectionBody;
    var shift := |body| - (end - from);
    var at := HeaderIndex(lines, other);
    if at == |lines| {
      NoBody(lines, other);
      NoBody(r, other);
    } else {
      var stop := SectionEnd(lines, at + 1);
      BodyIs(lines, other, at, stop);
      if at < from {
        BodyIs(r, other, at, stop);
        assert r[at + 1..stop] == lines[at + 1..stop];
      } else {
        BodyIs(r, other, at + shift, stop + shift);
        assert r[at + shift + 1..stop + shift] == lines[at + 1..stop];
      }
    }
  }

  lemma OthersKeptOnAppend(lines: seq<string>, name: string, body: seq<string>, other: string)
    requires NoHeaders(body) && Lower(Header(other)) != Lower(Header(name)) && !HasSection(lines, name)
    ensures SectionBody(ReplaceSection(lines, name, body), other) == SectionBody(lines, other) +
      if HasSection(lines, other) && SectionEnd(lines, HeaderIndex(lines, other) + 1) == |lines| then Separator(lines)
      else []
  {
    hide IsHeader, OpensSection, Strip, Lower, HeaderIndex, SectionEnd;
    var r := ReplaceSection(lines, name, body);
    var n := |lines + Separator(lines)|;
    AppendedLines(lines, name, body, other);
    hide ReplaceSection, Separator, SectionBody;
    var at := HeaderIndex(lines, other);
    assert forall j | 0 <= j < |lines| :: r[..|lines|][j] == r[j];
    if at == |lines| {
      NoBody(lines, other);
      NoBody(r, other);
    } else {
      var stop := SectionEnd(lines, at + 1);
      BodyIs(lines, other, at, stop);
      if stop < |lines| {
        BodyIs(r, other, at, stop);
        assert r[..|lines|][at + 1..stop] == r[at + 1..stop];
      } else {
        BodyIs(r, other, at, n);
        assert r[at + 1..n] == r[..|lines|][at + 1..] + r[|lines|..n];
      }
    }
  }

  /** What each line is after a section has been appended. */
  lemma AppendedLines(lines: seq<string>, name: string, body: seq<string>, other: string)
    requires NoHeaders(body) && Lower(Header(other)) != Lower(Header(name)) && !HasSection(lines, name)
    ensures var r := ReplaceSection(lines, name, body);
      var n := |lines + Separator(lines)|;
      && r == r[..n] + [Header(name)] + body && |r| > n
      && r[..|lines|] == lines && r[|lines|..n] == Separator(lines)
      && (forall j | |lines| <= j < n :: !OpensSection(r[j]))
      && OpensSection(r[n])
      && (forall j | |lines| <= j < |r| :: !IsHeader(r[j], other))
  {
    hide IsHeader, OpensSection, Strip, Lower, HeaderIndex, SectionEnd, Header;
    var r := ReplaceSection(lines, name, body);
    var n := |lines + Separator(lines)|;
    SeparatorIsBlank(lines, other);
    HeaderIsHeader(name);
    assert forall j | |lines| <= j < n :: r[j] in Separator(lines);
    assert forall j | n < j < |r| :: r[j] in body;
    if IsHeader(r[n], other) { HeaderNamesOne(r[n], name, other); }
    forall line | IsHeader(line, other) ensures OpensSection(line) { HeaderOpens(line, other); }
  }

  // -- Key=Value lines -----------------------------------------------------------------------

  /** Position of the first `=`, or |s|. */
  function EqualsSign(s: string): (i: nat)
    ensures i <= |s|
    ensures i < |s| ==> s[i] == '='
    ensures forall j | 0 <= j < i :: s[j] != '='
  {
    if s == "" || s[0] == '=' then 0 else 1 + EqualsSign(s[1..])
  }

  lemma EqualsSignIs(s: string, i: nat)
    requires i < |s| && s[i] == '=' && forall j | 0 <= j < i :: s[j] != '='
    ensures EqualsSign(s) == i
  {}

  predicate IsCommentary(c: char) { c == ';' || c == '#' || c == '[' }

  function SplitKeyValue(line: string): Option<(string, string)> {
    var t := Strip(line);
    if t == "" || IsCommentary(t[0]) then None
    else
      var i := EqualsSign(t);
      var key := Strip(t[..i]);
      if i == |t| || key == "" then None else Some((key, Strip(t[i + 1..])))
  }

  /** What a line can be keyed by. */
  predicate IsKey(key: string) {
    key != "" && Trimmed(key) && !IsCommentary(key[0]) && forall i | 0 <= i < |key| :: key[i] != '='
  }

  function KeyLine(key: string, value: string): string { key + "=" + value }

  lemma KeyLineTrimmed(key: string, value: string)
    requires IsKey(key) && Trimmed(value)
    ensures Trimmed(KeyLine(key, value)) && KeyLine(key, value)[0] == key[0]
  {
    assert value != "" ==> KeyLine(key, value)[|key| + |value|] == value[|value| - 1];
  }

  /** Joining a key and a trimmed value is undone by splitting. */
  lemma SplitJoined(key: string, value: string)
    requires IsKey(key) && Trimmed(value)
    ensures SplitKeyValue(KeyLine(key, value)) == Some((key, value))
    ensures !OpensSection(KeyLine(key, value))
  {
    hide Strip, EqualsSign, IsSpace;
    var t := KeyLine(key, value);
    KeyLineTrimmed(key, value);
    StripTrimmed(t);
    EqualsSignIs(t, |key|);
    assert t[..|key|] == key && t[|key| + 1..] == value;
    StripTrimmed(key);
    StripTrimmed(value);
  }

  lemma SplitGivesKey(line: string)
    requires SplitKeyValue(line).Some?
    ensures IsKey(SplitKeyValue(line).value.0) && Trimmed(SplitKeyValue(line).value.1)
    ensures !OpensSection(line)
  {
    var t := Strip(line);
    hide Strip, EqualsSign, IsSpace;
    var head := t[..EqualsSign(t)];
    StripPrefix(head);
    assert Strip(head) == head[..|Strip(head)|];
  }

  lemma BlankHasNoKey(line: string)
    requires AllSpace(line)
    ensures SplitKeyValue(line).None? && !OpensSection(line)
  {
    StripBlank(line);
  }
}
