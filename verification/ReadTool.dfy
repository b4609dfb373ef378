/** `vault_read`'s line windows, and patches built from them. */
module ReadTool {
  import opened Basics
  import opened Lines
  import opened Patch
  import opened PatchApply
  import opened PatchParse
  import opened PatchPrint
  import opened PatchTool

  datatype Window = Window(content: string, totalLines: nat, startLine: nat, endLine: nat)

  /** `_slice_content`; the request model admits only line numbers from 1 on. */
  function SliceContent(content: string, startLine: Option<nat>, endLine: Option<nat>, tailLines: Option<nat>): Window
    requires startLine.Some? ==> startLine.value >= 1
  {
    var lines := SplitLines(content);
    var total := |lines|;
    if total == 0 then Window("", 0, 0, 0)
    else
      var start0 := if tailLines.Some? then Max(0, total - tailLines.value)
                    else if startLine.None? then 0 else startLine.value - 1;
      var end0 := if tailLines.Some? || endLine.None? then total else Min(endLine.value, total);
      var start := Min(start0, total);
      var end := Max(start, Min(end0, total));
      Window(Concat(lines[start..end]), total,
             if end > start then start + 1 else 0, if end > start then end else 0)
  }

  /** `str.splitlines()`. */
  function ChompAll(lines: seq<string>): (r: seq<string>)
    ensures |r| == |lines| && forall i :: 0 <= i < |r| ==> r[i] == Chomp(lines[i])
  {
    seq(|lines|, i requires 0 <= i < |lines| => Chomp(lines[i]))
  }

  /** The `numbered_lines` of a reply: line numbers zipped with the window's lines. */
  function Numbered(w: Window): seq<(nat, string)> {
    var texts := ChompAll(SplitLines(w.content));
    var count := Min(Max(0, w.endLine + 1 - w.startLine), |texts|);
    seq(count, i requires 0 <= i < count => (w.startLine + i, texts[i]))
  }

  /** A window is the text of its lines, all inside the file. */
  lemma WindowBounds(content: string, startLine: Option<nat>, endLine: Option<nat>, tailLines: Option<nat>)
    requires startLine.Some? ==> startLine.value >= 1
    ensures var w, lines := SliceContent(content, startLine, endLine, tailLines), SplitLines(content);
      && w.totalLines == |lines|
      && if w.startLine == 0 then
           && w.endLine == 0
           && (w.content == "" || exists k :: 0 <= k <= |lines| && w.content == Concat(lines[k..k]))
         else
           w.startLine <= w.endLine <= |lines| && w.content == Concat(lines[w.startLine - 1..w.endLine])
  {
    hide SplitLines, Concat;
  }

  /** Line number `k` was asked for: one of the last ones, or in the given range, whose ends may be open. */
  predicate Asked(k: nat, total: nat, startLine: Option<nat>, endLine: Option<nat>, tailLines: Option<nat>) {
    && 1 <= k <= total
    && match tailLines
       case Some(t) => k > total - t
       case None => (startLine.Some? ==> startLine.value <= k) && (endLine.Some? ==> k <= endLine.value)
  }

  /** The window is the lines that were asked for, all of them and no others; it is empty when there are none. */
  lemma WindowHoldsAsked(content: string, startLine: Option<nat>, endLine: Option<nat>, tailLines: Option<nat>)
    requires startLine.Some? ==> startLine.value >= 1
    ensures var w, lines := SliceContent(content, startLine, endLine, tailLines), SplitLines(content);
      && w.totalLines == |lines|
      && (forall k: nat :: Asked(k, |lines|, startLine, endLine, tailLines) <==> 1 <= w.startLine <= k <= w.endLine)
      && (w.startLine >= 1 ==> w.startLine <= w.endLine <= |lines|
                               && w.content == Concat(lines[w.startLine - 1..w.endLine]))
      && (w.startLine == 0 ==> w.endLine == 0 && w.content == "")
  {
    hide SplitLines, Concat;
    var w, lines := SliceContent(content, startLine, endLine, tailLines), SplitLines(content);
    if w.startLine == 0 && |lines| > 0 {
      WindowBounds(content, startLine, endLine, tailLines);
      forall k | 0 <= k <= |lines| ensures Concat(lines[k..k]) == "" {
        EmptyConcat(lines[k..k]);
      }
    }
  }

  /** Each numbered line is that line of the file, without its terminator, and none is missing. */
  lemma NumberedLines(content: string, startLine: Option<nat>, endLine: Option<nat>, tailLines: Option<nat>)
    requires startLine.Some? ==> startLine.value >= 1
    ensures var w, lines := SliceContent(content, startLine, endLine, tailLines), SplitLines(content);
      if w.startLine == 0 then Numbered(w) == []
      else
        && w.startLine <= w.endLine <= |lines|
        && |Numbered(w)| == w.endLine - w.startLine + 1
        && forall i :: 0 <= i < |Numbered(w)| ==>
             Numbered(w)[i] == (w.startLine + i, Chomp(lines[w.startLine + i - 1]))
  {
    hide SplitLines, Concat, Chomp, WellSplit, SliceContent;
    var w, lines := SliceContent(content, startLine, endLine, tailLines), SplitLines(content);
    WindowBounds(content, startLine, endLine, tailLines);
    SplitIsWellSplit(content);
    if w.startLine == 0 {
      EmptyText(lines, w.content);
    } else {
      var window := lines[w.startLine - 1..w.endLine];
      WellSplitSlice(lines, w.startLine - 1, w.endLine);
      SplitOfConcat(window);
    }
  }

  lemma EmptyText(lines: seq<string>, text: string)
    requires text == "" || exists k :: 0 <= k <= |lines| && text == Concat(lines[k..k])
    ensures SplitLines(text) == []
  {
    assert forall k :: 0 <= k <= |lines| ==> lines[k..k] == [];
  }

  /** The windows 1..k and k+1.. are the whole file, cut in two. */
  lemma WindowsConcatenate(content: string, k: nat)
    requires k >= 1
    ensures SliceContent(content, None, Some(k), None).content + SliceContent(content, Some(k + 1), None, None).content
         == content
  {
    hide SplitLines, Concat;
    var lines := SplitLines(content);
    SplitIsWellSplit(content);
    var cut := Min(k, |lines|);
    if |lines| == 0 {
      assert content == "" by { EmptyText([], ""); assert Concat(lines) == content; EmptyConcat(lines); }
    } else {
      assert lines[..cut] + lines[cut..] == lines;
      ConcatAppend(lines[..cut], lines[cut..]);
      assert SliceContent(content, None, Some(k), None).content == Concat(lines[0..cut]);
      assert lines[0..cut] == lines[..cut] && lines[cut..|lines|] == lines[cut..];
    }
  }

  lemma EmptyConcat(lines: seq<string>)
    requires |lines| == 0
    ensures Concat(lines) == ""
  {
  }

  /** The last `t` lines are the window from line total-t+1 on. */
  lemma TailIsWindow(content: string, t: nat)
    requires 1 <= t <= |SplitLines(content)|
    ensures SliceContent(content, None, None, Some(t))
         == SliceContent(content, Some(|SplitLines(content)| - t + 1), None, None)
  {
    hide SplitLines, Concat;
  }

  // ----- Reading a window, then patching it -----

  /** NFC leaves a terminator at the end of a string alone. */
  ghost predicate BreaksInert(nfc: string -> string) {
    forall s: string, c: char :: IsBreak(c) ==> nfc(s + [c]) == nfc(s) + [c]
  }

  /** The line ends in '\n' or, as the last line may, in nothing. */
  predicate PlainEnd(line: string) {
    Terminated(line) ==> line[|line| - 1] == '\n'
  }

  lemma {:induction false} StripSelectorsAppend(s: string, c: char)
    requires !IsVariationSelector(c)
    ensures StripSelectors(s + [c]) == StripSelectors(s) + [c]
  {
    if s != "" {
      assert (s + [c])[1..] == s[1..] + [c];
      StripSelectorsAppend(s[1..], c);
    }
  }

  lemma CrlfEndHasCr(line: string)
    ensures EndsWith(line, "\r\n") ==> '\r' in line
  {
    if EndsWith(line, "\r\n") {
      assert line[|line| - 2] == line[|line| - 2..][0];
    }
  }

  /** A line matches its numbered text exactly when it ends plainly. */
  lemma NumberedTextMatches(nfc: string -> string, line: string)
    requires BreaksInert(nfc) && line != "" && '\r' !in line
    ensures Norm(nfc)(line) == Norm(nfc)(Chomp(line) + "\n") <==> PlainEnd(line)
  {
    hide Norm, StripSelectors, RStripNewlines, BreaksInert;
    var body := Chomp(line);
    CrlfEndHasCr(line);
    NormOfTerminated(nfc, body, '\n');
    if Terminated(line) {
      assert line == body + [line[|line| - 1]];
      NormOfTerminated(nfc, body, line[|line| - 1]);
    }
    assert body + "\n" == body + ['\n'];
  }

  lemma NormOfTerminated(nfc: string -> string, body: string, c: char)
    requires BreaksInert(nfc) && IsBreak(c)
    ensures Norm(nfc)(body + [c]) == Norm(nfc)(body) <==> c == '\n'
  {
    var core := StripSelectors(nfc(body));
    assert nfc(body + [c]) == nfc(body) + [c];
    StripSelectorsAppend(nfc(body), c);
    assert (core + [c])[..|core|] == core;
  }

  /**
   * Read-edit-patch: a hunk whose old side is a numbered window (each text with a newline, as a diff
   * carries it) and whose start is the window's first number is accepted exactly when every line of
   * the window ends plainly, and then it replaces exactly those lines.
   */
  lemma WindowPatch(nfc: string -> string, content: string, startLine: Option<nat>, endLine: Option<nat>,
                    tailLines: Option<nat>, h: Hunk)
    requires BreaksInert(nfc) && '\r' !in content
    requires startLine.Some? ==> startLine.value >= 1
    requires var w := SliceContent(content, startLine, endLine, tailLines);
      && w.startLine >= 1 && h.oldStart == w.startLine
      && |OldSide(h.lines)| == |Numbered(w)|
      && forall i :: 0 <= i < |Numbered(w)| ==> OldSide(h.lines)[i] == Numbered(w)[i].1 + "\n"
    ensures var w, lines := SliceContent(content, startLine, endLine, tailLines), SplitLines(content);
      && w.startLine <= w.endLine <= |lines|
      && |OldSide(h.lines)| == w.endLine - w.startLine + 1
      && SpliceAll(Norm(nfc), lines, [h], 0)
         == if forall k :: w.startLine - 1 <= k < w.endLine ==> PlainEnd(lines[k])
            then Some(lines[..w.startLine - 1]
                      + Fill(h.lines, lines[w.startLine - 1..w.endLine]) + lines[w.endLine..])
            else None
  {
    hide SplitLines, Concat, Chomp, Norm, PlainEnd, OldSide, SliceContent, Numbered, BreaksInert, IsLine, Separable;
    var w, lines := SliceContent(content, startLine, endLine, tailLines), SplitLines(content);
    NumberedLines(content, startLine, endLine, tailLines);
    SplitIsWellSplit(content);
    var a, b := w.startLine - 1, w.endLine;
    var claimed := Clamped(lines, a, b);
    assert claimed == lines[a..b];
    forall i | 0 <= i < |claimed|
      ensures Norm(nfc)(claimed[i]) == Norm(nfc)(OldSide(h.lines)[i]) <==> PlainEnd(lines[a + i])
    {
      assert OldSide(h.lines)[i] == Numbered(w)[i].1 + "\n" == Chomp(lines[a + i]) + "\n";
      LineHasNoCr(content, lines, a + i);
      NumberedTextMatches(nfc, lines[a + i]);
    }
    OneHunk(Norm(nfc), lines, h, a, b);
    if forall k :: a <= k < b ==> PlainEnd(lines[k]) {
      assert Matches(Norm(nfc), claimed, OldSide(h.lines));
    } else {
      var k :| a <= k < b && !PlainEnd(lines[k]);
      assert Norm(nfc)(claimed[k - a]) != Norm(nfc)(OldSide(h.lines)[k - a]);
    }
  }

  /**
   * The same from the printed diff text to the new file text; if a line of the window, once deleted,
   * looks like a file header, the diff is refused as a multi-file patch.
   */
  lemma WindowPatchText(env: Env, path: string, content: string, startLine: Option<nat>, endLine: Option<nat>,
                        tailLines: Option<nat>, h: Hunk)
    requires BreaksInert(env.nfc) && '\r' !in content
    requires startLine.Some? ==> startLine.value >= 1
    requires var w := SliceContent(content, startLine, endLine, tailLines);
      && w.startLine >= 1 && h.oldStart == w.startLine
      && |OldSide(h.lines)| == |Numbered(w)|
      && forall i :: 0 <= i < |Numbered(w)| ==> OldSide(h.lines)[i] == Numbered(w)[i].1 + "\n"
    ensures var w, lines := SliceContent(content, startLine, endLine, tailLines), SplitLines(content);
      && w.startLine <= w.endLine <= |lines|
      && |OldSide(h.lines)| == w.endLine - w.startLine + 1
      && (WellFormed([h]) ==>
           Updated(env, path, content, Print([h]))
           == if !NoLookalike([h]) then Err(MultiFile)
              else if forall k :: w.startLine - 1 <= k < w.endLine ==> PlainEnd(lines[k])
              then Ok(Concat(lines[..w.startLine - 1]
                             + Fill(h.lines, lines[w.startLine - 1..w.endLine]) + lines[w.endLine..]))
              else Err(ContextMismatch))
  {
    hide SplitLines, Concat, Chomp, Norm, PlainEnd, OldSide, SliceContent, Numbered, BreaksInert, Parse, Print,
      WellFormed, NoLookalike, SpliceAll, Fill;
    WindowPatch(env.nfc, content, startLine, endLine, tailLines, h);
    ParseOfPrint(path, [h]);
  }

  lemma LineHasNoCr(content: string, lines: seq<string>, i: nat)
    requires lines == SplitLines(content) && '\r' !in content && i < |lines|
    ensures lines[i] != "" && '\r' !in lines[i]
  {
    SplitIsWellSplit(content);
    if '\r' in lines[i] {
      CharsOfConcat(lines, i, '\r');
    }
  }
}
