/** The tail object: polls one log file and keeps its place in it. */
module LogTail {
  import opened Options
  import opened TailValues
  import opened TailSignature

  const BACKTRACK_BYTES: nat := 4096

  /** `marker` occurs in `data` at `i`. */
  predicate OccursAt(data: seq<byte>, marker: seq<byte>, i: nat) {
    i + |marker| <= |data| && data[i..i + |marker|] == marker
  }

  /** Just after the line of the last marker in `chunk`, or its end when there is none. */
  ghost predicate StartsAfter(chunk: seq<byte>, marker: seq<byte>, offset: nat) {
    if forall i :: !OccursAt(chunk, marker, i) then offset == |chunk|
    else exists m: nat ::
      && OccursAt(chunk, marker, m)
      && (forall i | m < i :: !OccursAt(chunk, marker, i))
      && m <= offset <= |chunk|
      && (forall i | m <= i < offset - 1 :: chunk[i] != LF)
      && (offset < |chunk| ==> m < offset && chunk[offset - 1] == LF)
  }

  function Backtrack(file: seq<byte>): nat {
    if |file| > BACKTRACK_BYTES then |file| - BACKTRACK_BYTES else 0
  }

  class LogTail {
    var position: nat
    var partial: seq<byte>
    var signature: seq<byte>

    ghost function Value(): Tail
      reads this
    {
      Tail(position, partial, signature)
    }

    constructor Attach(file: seq<byte>, marker: seq<byte>)
      ensures Agrees(Value(), file) && partial == []
      ensures var from := if |file| > 4096 then |file| - 4096 else 0;
        && position >= from && Remembers(Value(), from)
        && StartsAfter(file[from..], marker, position - from)
    {
      var start := Backtrack(file);
      var chunk := file[start..];
      var offset := StartOffset(chunk, marker);
      position, partial := start + offset, [];
      signature := LastBytes(chunk[..offset], SIGNATURE_BYTES);
      new;
      assert chunk[..offset] == file[start..position];
    }

    method Restart()
      modifies this
      ensures Value() == TOP
    {
      position, partial, signature := 0, [], [];
    }

    /** `file` is None when the log cannot be read just now. */
    method Poll(file: Option<seq<byte>>) returns (lines: seq<seq<byte>>)
      modifies this
      ensures file.None? ==> Value() == old(Value()) && lines == []
      ensures file.Some? ==> Value() == Polled(old(Value()), file.value) && lines == Yielded(old(Value()), file.value)
      ensures file.Some? && Rotated(old(Value()), file.value) ==>
        CaughtUp(Value(), 0, file.value, lines) && position == |file.value| && Remembers(Value(), 0)
      ensures forall base | file.Some? && !Rotated(old(Value()), file.value) && Remembers(old(Value()), base) ::
        Remembers(Value(), base)
    {
      if file.None? { return []; }
      ghost var before := Value();
      var data := Reread(file.value);
      lines := Take(data);
      PollRestarts(before, file.value);
      forall base | Remembers(before, base) ensures !Rotated(before, file.value) ==> Remembers(Value(), base) {
        PollRemembers(before, file.value, base);
      }
    }

    /** Decide whether this is still the file we left, and read what is new in it. */
    method Reread(file: seq<byte>) returns (data: seq<byte>)
      modifies this
      ensures Value() == Resume(old(Value()), file) && data == News(old(Value()), file)
    {
      ghost var before := Value();
      var same;
      same, data := ReadBack(file, position, signature, before);
      if !same { Restart(); }
      ResumeIs(before, file);
    }

    /** Move past `data` and hand on the lines it completes. */
    method Take(data: seq<byte>) returns (lines: seq<seq<byte>>)
      modifies this
      ensures Value() == Absorb(old(Value()), data)
      ensures lines == if data == [] then [] else Yield(old(partial) + data)
    {
      if data == [] { return []; }
      ghost var before := Value();
      position, signature := position + |data|, LastBytes(signature + data, SIGNATURE_BYTES);
      partial, lines := CutLines(partial + data);
      assert Value() == Absorb(before, data);
    }
  }

  /** The bytes after the position, or the whole file when it is not the one we left. */
  method ReadBack(file: seq<byte>, position: nat, signature: seq<byte>, ghost t: Tail)
    returns (same: bool, data: seq<byte>)
    requires t.position == position && t.signature == signature
    ensures same <==> !Rotated(t, file)
    ensures data == if same then file[position..] else file
  {
    hide Rotated, LastBytes;
    RotatedIff(t, file);
    if |file| < position { return false, file; }
    var back := if |signature| < position then |signature| else position;
    if |file| == position && back == 0 { return true, []; }
    data := file[position - back..];
    TwoSlices(file, position, back);
    if back > 0 && data[..back] != signature[|signature| - back..] { return false, file; }
    return true, data[back..];
  }

  /** Keep a trailing partial line for the next poll. */
  method CutLines(data: seq<byte>) returns (partial: seq<byte>, lines: seq<seq<byte>>)
    requires data != []
    ensures partial == data[Complete(data)..] && lines == Yield(data)
  {
    if data[|data| - 1] == LF { return [], NonEmpty(SplitLines(data)); }
    var whole := Complete(data);
    partial := data[whole..];
    // With no terminator at all the head is empty and a bare terminator is left.
    var text := if whole == 0 then [LF] else data[..whole];
    assert Blank([LF]) && Blank(data[..0]);
    lines := if Blank(text) then [] else NonEmpty(SplitLines(text));
  }

  lemma TwoSlices(file: seq<byte>, position: nat, back: nat)
    requires back <= position <= |file|
    ensures var data := file[position - back..];
      data[..back] == file[position - back..position] && data[back..] == file[position..]
  {}

  /** The size is only a shortcut: with the position inside the file, the bytes decide. */
  lemma RotatedIff(t: Tail, file: seq<byte>)
    ensures |file| < t.position ==> Rotated(t, file)
    ensures t.position <= |file| ==>
      (Rotated(t, file) <==>
        Back(t) > 0 && file[t.position - Back(t)..t.position] != t.signature[|t.signature| - Back(t)..])
  {
    if t.position <= |file| && Back(t) == 0 {
      assert file[t.position..t.position] == [] == LastBytes(t.signature, 0);
    }
  }

  lemma ResumeIs(t: Tail, file: seq<byte>)
    ensures Rotated(t, file) ==> Resume(t, file) == TOP && News(t, file) == file
    ensures !Rotated(t, file) ==> Resume(t, file) == t && News(t, file) == file[t.position..]
  {
    assert file[0..] == file;
  }

  method StartOffset(chunk: seq<byte>, marker: seq<byte>) returns (offset: nat)
    ensures offset <= |chunk| && StartsAfter(chunk, marker, offset)
  {
    var found := FindLast(chunk, marker);
    if found.None? { return |chunk|; }
    var eol := FindByte(chunk, found.value);
    return if eol < |chunk| then eol + 1 else |chunk|;
  }

  method FindLast(data: seq<byte>, marker: seq<byte>) returns (at: Option<nat>)
    ensures at.None? ==> forall i :: !OccursAt(data, marker, i)
    ensures at.Some? ==> OccursAt(data, marker, at.value) && forall i | at.value < i :: !OccursAt(data, marker, i)
  {
    var i := |data| + 1;
    while i > 0
      invariant forall j | i <= j :: !OccursAt(data, marker, j)
    {
      i := i - 1;
      if OccursAt(data, marker, i) { return Some(i); }
    }
    return None;
  }

  /** First line feed at or after `from`, or |data|. */
  method FindByte(data: seq<byte>, from: nat) returns (at: nat)
    requires from <= |data|
    ensures from <= at <= |data| && (at < |data| ==> data[at] == LF)
    ensures forall i | from <= i < at :: data[i] != LF
  {
    at := from;
    while at < |data| && data[at] != LF
      invariant from <= at <= |data|
      invariant forall i | from <= i < at :: data[i] != LF
    {
      at := at + 1;
    }
  }
}
