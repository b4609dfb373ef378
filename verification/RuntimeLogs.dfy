/** The log tail: a file read in chunks into a bounded ring of lines, and the view over it. */
module RuntimeLogs {
  import opened Basics
  import opened Utf8

  const DEFAULT_MAX_LINES := 2_000

  datatype State = Loading | Ready | Empty | Unavailable

  /** What one refresh finds: the length, whether open and seek work, and the bytes (None on a read error). */
  datatype FileView = FileView(length: Option<nat>, opens: bool, seeks: bool, bytes: Option<seq<Byte>>)

  // ----- The batch reading of a text -----

  /** `trim_end_matches('\r')`. */
  function TrimCr(s: string): string {
    if s != "" && s[|s| - 1] == '\r' then TrimCr(s[..|s| - 1]) else s
  }

  /** Index of the first '\n', or the length. */
  function NewlineAt(s: string): (n: nat)
    ensures n <= |s| && (n < |s| ==> s[n] == '\n')
    ensures '\n' !in s[..n]
  {
    if s == "" || s[0] == '\n' then 0 else 1 + NewlineAt(s[1..])
  }

  /** The finished lines of a text. */
  function CompleteLines(s: string): seq<string> {
    var n := NewlineAt(s);
    if n == |s| then [] else [TrimCr(s[..n])] + CompleteLines(s[n + 1..])
  }

  /** The text after the last newline. */
  function Remainder(s: string): string {
    var n := NewlineAt(s);
    if n == |s| then s else Remainder(s[n + 1..])
  }

  /** The last n elements, or all of them when there are fewer. */
  function Last<T>(s: seq<T>, n: nat): (r: seq<T>)
    ensures |r| == Min(|s|, n)
  {
    if |s| <= n then s else s[|s| - n..]
  }

  lemma LastLine(s: string)
    requires NewlineAt(s) == |s|
    ensures CompleteLines(s) == [] && Remainder(s) == s
  {
    hide NewlineAt, TrimCr;
  }

  lemma FirstLine(s: string)
    requires NewlineAt(s) < |s|
    ensures CompleteLines(s) == [TrimCr(s[..NewlineAt(s)])] + CompleteLines(s[NewlineAt(s) + 1..])
    ensures Remainder(s) == Remainder(s[NewlineAt(s) + 1..])
  {
    hide NewlineAt, TrimCr;
  }

  lemma {:induction false} NewlineAtAppend(a: string, b: string)
    requires NewlineAt(a) < |a|
    ensures NewlineAt(a + b) == NewlineAt(a)
  {
    if a[0] != '\n' {
      assert (a + b)[1..] == a[1..] + b;
      NewlineAtAppend(a[1..], b);
    }
  }

  /** What follows in the file only meets the unfinished line. */
  lemma {:induction false} LinesOfAppend(a: string, b: string)
    ensures CompleteLines(a + b) == CompleteLines(a) + CompleteLines(Remainder(a) + b)
    ensures Remainder(a + b) == Remainder(Remainder(a) + b)
  {
    hide TrimCr, NewlineAt, CompleteLines, Remainder;
    var n := NewlineAt(a);
    if n == |a| {
      LastLine(a);
      assert [] + CompleteLines(a + b) == CompleteLines(a + b);
    } else {
      var rest := a[n + 1..];
      FirstLine(a);
      OneLineOff(a, b);
      LinesOfAppend(rest, b);
      assert [TrimCr(a[..n])] + (CompleteLines(rest) + CompleteLines(Remainder(rest) + b))
          == [TrimCr(a[..n])] + CompleteLines(rest) + CompleteLines(Remainder(rest) + b);
    }
  }

  lemma OneLineOff(a: string, b: string)
    requires NewlineAt(a) < |a|
    ensures CompleteLines(a + b) == [TrimCr(a[..NewlineAt(a)])] + CompleteLines(a[NewlineAt(a) + 1..] + b)
    ensures Remainder(a + b) == Remainder(a[NewlineAt(a) + 1..] + b)
  {
    hide TrimCr, NewlineAt, CompleteLines, Remainder;
    var n := NewlineAt(a);
    NewlineAtAppend(a, b);
    FirstLine(a + b);
    assert (a + b)[..n] == a[..n] && (a + b)[n + 1..] == a[n + 1..] + b;
  }

  /** What is kept is the end. */
  lemma LastIsTheEnd<T>(s: seq<T>, n: nat, i: nat)
    requires i < Min(|s|, n)
    ensures Last(s, n)[|Last(s, n)| - 1 - i] == s[|s| - 1 - i]
  {
  }

  /** A text without newline is an unfinished line. */
  lemma UnfinishedLine(s: string)
    requires '\n' !in s
    ensures CompleteLines(s) == [] && Remainder(s) == s
  {
    hide TrimCr;
    assert NewlineAt(s) == |s|;
  }

  lemma {:induction false} TrimmedLine(line: string, crs: string)
    requires forall i :: 0 <= i < |crs| ==> crs[i] == '\r'
    requires line == "" || line[|line| - 1] != '\r'
    ensures TrimCr(line + crs) == line
  {
    if crs == "" {
      assert line + crs == line;
    } else {
      var shorter := crs[..|crs| - 1];
      assert (line + crs)[..|line + crs| - 1] == line + shorter;
      TrimmedLine(line, shorter);
    }
  }

  /** A finished line is the text before its newline, without any carriage returns at its end. */
  lemma FinishedLine(line: string, crs: string, rest: string)
    requires '\n' !in line && (line == "" || line[|line| - 1] != '\r')
    requires forall i :: 0 <= i < |crs| ==> crs[i] == '\r'
    ensures CompleteLines(line + crs + "\n" + rest) == [line] + CompleteLines(rest)
    ensures Remainder(line + crs + "\n" + rest) == Remainder(rest)
  {
    hide TrimCr, CompleteLines, Remainder;
    var text, s := line + crs, line + crs + "\n" + rest;
    TrimmedLine(line, crs);
    NewlineAfter(text, rest);
    FirstLine(s);
    assert s[..|text|] == text && s[|text| + 1..] == rest;
  }

  lemma {:induction false} NewlineAfter(text: string, rest: string)
    requires '\n' !in text
    ensures NewlineAt(text + "\n" + rest) == |text|
  {
    if text != "" {
      assert (text + "\n" + rest)[1..] == text[1..] + "\n" + rest;
      NewlineAfter(text[1..], rest);
    }
  }

  // ----- One chunk at a time -----

  datatype Tail = Tail(lines: seq<string>, partial: string)

  /** The ring and the unfinished line after one more piece of text. */
  function Ingest(tail: Tail, text: string, maxLines: nat): Tail {
    var combined := tail.partial + text;
    Tail(Last(tail.lines + CompleteLines(combined), maxLines), Remainder(combined))
  }

  function IngestAll(chunks: seq<string>, maxLines: nat): Tail {
    if |chunks| == 0 then Tail([], "")
    else Ingest(IngestAll(chunks[..|chunks| - 1], maxLines), chunks[|chunks| - 1], maxLines)
  }

  function Joined(chunks: seq<string>): string {
    if |chunks| == 0 then "" else Joined(chunks[..|chunks| - 1]) + chunks[|chunks| - 1]
  }

  lemma LastOfLast<T>(a: seq<T>, b: seq<T>, n: nat)
    ensures Last(Last(a, n) + b, n) == Last(a + b, n)
  {
  }

  /** Incremental equals batch, however the text was cut into chunks. */
  lemma {:induction false} IncrementalIsBatch(chunks: seq<string>, maxLines: nat)
    ensures IngestAll(chunks, maxLines)
         == Tail(Last(CompleteLines(Joined(chunks)), maxLines), Remainder(Joined(chunks)))
  {
    if |chunks| > 0 {
      var before, text := chunks[..|chunks| - 1], chunks[|chunks| - 1];
      IncrementalIsBatch(before, maxLines);
      LinesOfAppend(Joined(before), text);
      LastOfLast(CompleteLines(Joined(before)), CompleteLines(Remainder(Joined(before)) + text), maxLines);
    }
  }

  // ----- The object -----

  class Logs {
    var byteOffset: nat
    var partialLine: string
    var lines: seq<string>
    var maxLines: nat
    var follow: bool
    var scrollFromBottom: nat
    var state: State
    ghost var consumed: seq<Byte>   // the bytes read since the last reset
    ghost var seen: string          // their text, decoded chunk by chunk

    /** The ring is the batch reading of the text seen; following means being at the bottom. */
    ghost predicate Valid()
      reads this
    {
      && maxLines == DEFAULT_MAX_LINES
      && lines == Last(CompleteLines(seen), maxLines)
      && partialLine == Remainder(seen)
      && byteOffset == |consumed|
      && (follow <==> scrollFromBottom == 0)
      && scrollFromBottom <= |lines|
    }

    /** The text seen is the decoding of the bytes read, and these cut no character off. */
    ghost predicate InStep()
      reads this
    {
      seen == Decode(consumed) && EndsWhole(consumed)
    }

    constructor ()
      ensures Valid() && InStep() && seen == "" && consumed == [] && state == Loading && maxLines == 2_000
    {
      byteOffset, partialLine, lines, maxLines := 0, "", [], DEFAULT_MAX_LINES;
      follow, scrollFromBottom, state := true, 0, Loading;
      consumed, seen := [], "";
    }

    /**
     * `refresh`. The bytes after the offset are consumed and decoded as one piece; the offset starts
     * over when the file has become shorter. Reading a file in step, however often, is then the same
     * as decoding it at once; and where the file holds a text in UTF-8, the log is that text's.
     */
    method Refresh(file: FileView)
      requires Valid()
      modifies this
      ensures Valid()
      ensures var restart := file.length.Some? && file.length.value < old(byteOffset);
        var base, text := if restart then [] else old(consumed), if restart then "" else old(seen);
        if Succeeds(file) then
          var chunk := file.bytes.value[Min(|base|, |file.bytes.value|)..];
          && consumed == base + chunk
          && seen == (if chunk == [] then text else text + Decode(chunk))
          && (base <= file.bytes.value ==> consumed == file.bytes.value)
          && state == (if |lines| == 0 then Empty else Ready)
        else consumed == base && seen == text && state == Unavailable
      ensures var distance := if file.length.Some? && file.length.value < old(byteOffset) then 0 else old(scrollFromBottom);
        scrollFromBottom == Min(distance, |lines|)
      ensures old(InStep()) ==> seen == Decode(consumed)
      ensures old(InStep()) && Succeeds(file) && old(consumed) <= file.bytes.value ==>
        forall text :: file.bytes.value == Encode(text) ==>
          && InStep() && seen == text
          && lines == Last(CompleteLines(text), maxLines) && partialLine == Remainder(text)
    {
      hide CompleteLines, Remainder, TrimCr, NewlineAt, Last, Decode, EndsWhole;
      EmptyInStep();
      if file.length.None? {
        state := Unavailable;
        return;
      }
      if file.length.value < byteOffset {
        ResetFileState();
      }
      if !file.opens || !file.seeks || file.bytes.None? {
        state := Unavailable;
        return;
      }
      var buffer := file.bytes.value[Min(byteOffset, |file.bytes.value|)..];
      ghost var base := consumed;
      byteOffset := byteOffset + |buffer|;
      consumed := consumed + buffer;
      assert base <= file.bytes.value ==> consumed == file.bytes.value;
      assert buffer == [] ==> consumed == base;
      if old(InStep()) {
        StepAppend(base, buffer);
      }
      IngestBytes(buffer);
      NormalizeScroll();
      state := if |lines| == 0 then Empty else Ready;
    }

    method IngestBytes(buffer: seq<Byte>)
      requires maxLines > 0 && lines == Last(CompleteLines(seen), maxLines) && partialLine == Remainder(seen)
      requires scrollFromBottom <= |lines|
      modifies this`lines, this`partialLine, this`seen
      ensures seen == (if buffer == [] then old(seen) else old(seen) + Decode(buffer))
      ensures lines == Last(CompleteLines(seen), maxLines) && partialLine == Remainder(seen)
      ensures scrollFromBottom <= |lines|
    {
      hide CompleteLines, Remainder, TrimCr, NewlineAt, Last, Decode;
      if buffer == [] {
        return;
      }
      var combined := partialLine + Decode(buffer);
      ghost var ring := lines;
      partialLine := "";
      LinesOfAppend(seen, Decode(buffer));
      LastOfLast(CompleteLines(seen), CompleteLines(combined), maxLines);
      var rest := combined;
      ghost var done: seq<string> := [];
      LastOfLast(CompleteLines(seen), [], maxLines);
      assert ring + [] == ring && CompleteLines(seen) + [] == CompleteLines(seen);
      while NewlineAt(rest) < |rest|
        invariant CompleteLines(combined) == done + CompleteLines(rest)
        invariant Remainder(combined) == Remainder(rest)
        invariant lines == Last(ring + done, maxLines)
        modifies this`lines
        decreases |rest|
      {
        FirstLine(rest);
        var line := TrimCr(rest[..NewlineAt(rest)]);
        PushLine(line);
        LastOfLast(ring + done, [line], maxLines);
        assert ring + done + [line] == ring + (done + [line]);
        assert done + ([line] + CompleteLines(rest[NewlineAt(rest) + 1..]))
            == (done + [line]) + CompleteLines(rest[NewlineAt(rest) + 1..]);
        done := done + [line];
        rest := rest[NewlineAt(rest) + 1..];
      }
      LastLine(rest);
      partialLine := rest;
      seen := seen + Decode(buffer);
      assert done + [] == done;
    }

    method PushLine(line: string)
      requires maxLines > 0 && |lines| <= maxLines
      modifies this`lines
      ensures lines == Last(old(lines) + [line], maxLines)
    {
      if |lines| == maxLines {
        lines := lines[1..];
      }
      lines := lines + [line];
    }

    method ResetFileState()
      requires maxLines == DEFAULT_MAX_LINES
      modifies this`byteOffset, this`partialLine, this`lines, this`scrollFromBottom, this`follow, this`consumed, this`seen
      ensures Valid() && seen == "" && consumed == [] && scrollFromBottom == 0
    {
      byteOffset, partialLine, lines, scrollFromBottom, follow := 0, "", [], 0, true;
      consumed, seen := [], "";
    }

    method NormalizeScroll()
      modifies this`scrollFromBottom, this`follow
      ensures scrollFromBottom == Min(old(scrollFromBottom), |lines|)
      ensures follow <==> scrollFromBottom == 0
    {
      scrollFromBottom := Min(scrollFromBottom, |lines|);
      follow := scrollFromBottom == 0;
    }

    method ScrollUp(amount: nat)
      requires Valid()
      modifies this`scrollFromBottom, this`follow
      ensures Valid() && scrollFromBottom == Min(old(scrollFromBottom) + amount, |lines|)
    {
      scrollFromBottom := scrollFromBottom + amount;
      NormalizeScroll();
    }

    method ScrollDown(amount: nat)
      requires Valid()
      modifies this`scrollFromBottom, this`follow
      ensures Valid() && scrollFromBottom == Max(old(scrollFromBottom) - amount, 0)
    {
      scrollFromBottom := Max(scrollFromBottom - amount, 0);
      NormalizeScroll();
    }

    method JumpToEnd()
      requires Valid()
      modifies this`scrollFromBottom, this`follow
      ensures Valid() && follow
    {
      scrollFromBottom := 0;
      follow := true;
    }

    /** `scroll_offset_for_height`: a full window inside the ring, as far up as scrolled. */
    method ScrollOffsetForHeight(height: nat) returns (offset: nat)
      requires Valid()
      ensures height == 0 || |lines| <= height ==> offset == 0
      ensures 0 < height < |lines| ==>
        && offset + height <= |lines|
        && offset == Max(0, |lines| - height - scrollFromBottom)
        && (follow ==> offset + height == |lines|)
    {
      if height == 0 {
        return 0;
      }
      var totalLines := |lines|;
      if totalLines <= height {
        return 0;
      }
      var maxHiddenBelow := Max(totalLines - height, 0);
      var hiddenBelow := Min(scrollFromBottom, maxHiddenBelow);
      var unbounded := Max(Max(totalLines - height, 0) - hiddenBelow, 0);
      offset := Min(unbounded, 0xFFFF);
    }
  }

  /** The file can be looked up, opened, positioned and read. */
  predicate Succeeds(file: FileView) {
    file.length.Some? && file.opens && file.seeks && file.bytes.Some?
  }

  lemma EmptyInStep()
    ensures Decode([]) == "" && EndsWhole([])
  {
  }

  /** After bytes that end whole the next ones are decoded as they would be in the whole. */
  lemma StepAppend(base: seq<Byte>, chunk: seq<Byte>)
    requires EndsWhole(base)
    ensures Decode(base + chunk) == Decode(base) + Decode(chunk)
    ensures forall text :: base + chunk == Encode(text) ==> Decode(base + chunk) == text && EndsWhole(base + chunk)
  {
    DecodeAppend(base, chunk);
    forall text | base + chunk == Encode(text) ensures Decode(base + chunk) == text && EndsWhole(base + chunk) {
      DecodeOfEncode(text);
    }
  }
}
