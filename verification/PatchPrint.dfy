/** Printing hunks, and the two directions of the parse/print round trip. */
module PatchPrint {
  import opened Basics
  import opened Lines
  import opened Patch
  import opened PatchParse

  function OpChar(op: Op): char {
    match op
    case Context => ' '
    case Delete => '-'
    case Insert => '+'
  }

  function PrintLine(line: HunkLine): string {
    [OpChar(line.op)] + line.text
  }

  function PrintBody(lines: seq<HunkLine>): (r: seq<string>)
    ensures |r| == |lines|
  {
    if |lines| == 0 then [] else [PrintLine(lines[0])] + PrintBody(lines[1..])
  }

  /** The parser keeps a header without its '\n'; any other terminator stays on it. */
  function HeaderLine(header: string): string {
    if Terminated(header) then header else header + "\n"
  }

  function PrintHunks(hunks: seq<Hunk>): seq<string> {
    if |hunks| == 0 then []
    else [HeaderLine(hunks[0].header)] + PrintBody(hunks[0].lines) + PrintHunks(hunks[1..])
  }

  function Print(hunks: seq<Hunk>): string {
    Concat(PrintHunks(hunks))
  }

  /** The header says what the hunk holds. */
  predicate HeaderAgrees(h: Hunk) {
    && MatchHeader(HeaderLine(h.header)) == Some((h.oldStart, h.oldCount, h.newCount))
    && RStripNewlines(HeaderLine(h.header)) == h.header
    && |OldSide(h.lines)| == h.oldCount
    && |NewSide(h.lines)| == h.newCount
  }

  predicate AllHeadersAgree(hunks: seq<Hunk>) {
    |hunks| == 0 || (HeaderAgrees(hunks[0]) && AllHeadersAgree(hunks[1..]))
  }

  /** Printed one after the other, the lines stay apart and hold no "\r\n". */
  predicate Printable(lines: seq<string>) {
    && (forall i :: 0 <= i < |lines| ==> IsLine(lines[i]) && !HasCrlf(lines[i]))
    && (forall i :: 0 <= i < |lines| - 1 ==> Terminated(lines[i]))
  }

  predicate WellFormed(hunks: seq<Hunk>) {
    hunks != [] && AllHeadersAgree(hunks) && Printable(PrintHunks(hunks))
  }

  /** The printed line would be read as a file header. */
  predicate Lookalike(line: HunkLine) {
    || (line.op.Delete? && StartsWith(line.text, "-- "))
    || (line.op.Insert? && StartsWith(line.text, "++ "))
  }

  predicate NoneLookalike(lines: seq<HunkLine>) {
    |lines| == 0 || (!Lookalike(lines[0]) && NoneLookalike(lines[1..]))
  }

  predicate NoLookalike(hunks: seq<Hunk>) {
    |hunks| == 0 || (NoneLookalike(hunks[0].lines) && NoLookalike(hunks[1..]))
  }

  // ----- Forward: parsing what was printed -----

  lemma ParsePrintedLine(line: HunkLine)
    ensures !StartsWith(PrintLine(line), "@@ ")
    ensures ParseLine(PrintLine(line)) == if Lookalike(line) then Err(MultiFile) else Ok(line)
  {
    var s := PrintLine(line);
    assert s[1..] == line.text;
    if |s| >= 4 {
      assert s[..4] == [s[0]] + line.text[..3];
      assert "--- " == ['-'] + "-- " && "+++ " == ['+'] + "++ ";
      if StartsWith(s, "--- ") { assert s[..4][1..] == line.text[..3] && "--- "[1..] == "-- "; }
      if StartsWith(s, "+++ ") { assert s[..4][1..] == line.text[..3] && "+++ "[1..] == "++ "; }
    }
    assert "@@ "[0] == '@' && "\\ "[0] == '\\' && "--- "[0] == '-' && "+++ "[0] == '+';
  }

  lemma {:induction false} ParsePrintedBody(lines: seq<HunkLine>, rest: seq<string>)
    requires |rest| > 0 ==> StartsWith(rest[0], "@@ ")
    ensures ParseBody(PrintBody(lines) + rest)
         == if NoneLookalike(lines) then Ok((lines, rest)) else Err(MultiFile)
  {
    hide ParseLine, PrintLine, Lookalike, StartsWith;
    if |lines| == 0 {
      assert PrintBody(lines) + rest == rest;
    } else {
      ParsePrintedLine(lines[0]);
      ParsePrintedBody(lines[1..], rest);
      assert (PrintBody(lines) + rest)[1..] == PrintBody(lines[1..]) + rest;
      assert [lines[0]] + lines[1..] == lines;
    }
  }

  lemma MatchedStart(line: string)
    requires MatchHeader(line).Some?
    ensures StartsWith(line, "@@ ") && !IsFileHeader(line) && line[0] == '@'
  {
    hide ReadRange;
    assert line[..3] == line[..4][..3] == "@@ -"[..3] == "@@ ";
    assert line[0] == line[..4][0] == '@';
    assert |line| >= 4 ==> line[..4] == "@@ -" != "--- ";
    assert line[..4] != "+++ ";
  }

  lemma {:induction false} ParsePrintedHunks(hunks: seq<Hunk>)
    requires AllHeadersAgree(hunks)
    ensures var lines := PrintHunks(hunks);
      && (|lines| > 0 ==> StartsWith(lines[0], "@@ ") && !IsFileHeader(lines[0]))
      && ParseHunks(lines) == if NoLookalike(hunks) then Ok(hunks) else Err(MultiFile)
  {
    hide MatchHeader, RStripNewlines, OldSide, NewSide, PrintBody, Terminated, HeaderLine, ParseBody, NoneLookalike,
      StartsWith, IsFileHeader;
    if |hunks| > 0 {
      var h, rest := hunks[0], PrintHunks(hunks[1..]);
      var lines := PrintHunks(hunks);
      ParsePrintedHunks(hunks[1..]);
      MatchedStart(HeaderLine(h.header));
      ParsePrintedBody(h.lines, rest);
      assert lines[0] == HeaderLine(h.header);
      assert lines[1..] == PrintBody(h.lines) + rest;
      assert NoneLookalike(h.lines) ==> ParseHunk(lines) == Ok((h, rest));
      assert [h] + hunks[1..] == hunks;
    }
  }

  /** No printed line is empty or starts with '\n'. */
  lemma {:induction false} PrintedStarts(hunks: seq<Hunk>, i: nat)
    requires AllHeadersAgree(hunks) && i < |PrintHunks(hunks)|
    ensures PrintHunks(hunks)[i] != "" && PrintHunks(hunks)[i][0] != '\n'
  {
    hide MatchHeader, RStripNewlines, OldSide, NewSide, Terminated, HeaderLine, PrintBody;
    var h := hunks[0];
    if i == 0 {
      MatchedStart(HeaderLine(h.header));
    } else if i <= |h.lines| {
      BodyAt(h.lines, i - 1);
    } else {
      PrintedStarts(hunks[1..], i - 1 - |h.lines|);
    }
  }

  lemma {:induction false} BodyAt(lines: seq<HunkLine>, i: nat)
    requires i < |lines|
    ensures PrintBody(lines)[i] == PrintLine(lines[i])
  {
    if i > 0 {
      BodyAt(lines[1..], i - 1);
    }
  }

  lemma PrintedSplits(hunks: seq<Hunk>)
    requires WellFormed(hunks)
    ensures SplitLines(NormalizeCrlf(Print(hunks))) == PrintHunks(hunks)
  {
    hide SplitLines, NormalizeCrlf, Concat, PrintHunks, AllHeadersAgree, IsLine, HasCrlf, Terminated;
    var lines := PrintHunks(hunks);
    forall i | 0 <= i < |lines| ensures lines[i] != "" && lines[i][0] != '\n' {
      PrintedStarts(hunks, i);
    }
    ConcatHasNoCrlf(lines);
    NormalizeCrlfIdentity(Print(hunks));
    SplitOfConcat(lines);
  }

  /**
   * Round trip, forward: a printed well-formed patch parses back to itself exactly when no deleted
   * text starts with "-- " and no inserted text starts with "++ ", and is refused as a multi-file
   * patch otherwise.
   */
  lemma ParseOfPrint(path: string, hunks: seq<Hunk>)
    ensures WellFormed(hunks) ==>
      Parse(path, Print(hunks)) == if NoLookalike(hunks) then Ok(hunks) else Err(MultiFile)
  {
    hide SplitLines, NormalizeCrlf, ParseHunks, NoLookalike, StartsWith, AllHeadersAgree, PrintHunks, Concat, Printable;
    if WellFormed(hunks) {
      PrintedSplits(hunks);
      ParsePrintedHunks(hunks);
      PrintedNonEmpty(hunks);
      HunksAtOnce(path, PrintHunks(hunks));
    }
  }

  lemma PrintedNonEmpty(hunks: seq<Hunk>)
    requires hunks != []
    ensures PrintHunks(hunks) != []
  {
  }

  lemma HunksAtOnce(path: string, lines: seq<string>)
    requires lines != [] && StartsWith(lines[0], "@@ ") && !IsFileHeader(lines[0])
    ensures ParseFileHeaders(path, lines) == Ok(lines)
  {
  }

  // ----- The same with file headers -----

  /** A path that can stand in a header line: no tab, no break, no space at its end. */
  predicate PlainPath(path: string) {
    && (forall i :: 0 <= i < |path| ==> path[i] != '\t' && !IsBreak(path[i]))
    && (path == "" || !IsSpace(path[|path| - 1]))
  }

  lemma {:induction false} UntilTabIdentity(s: string)
    requires forall i :: 0 <= i < |s| ==> s[i] != '\t'
    ensures UntilTab(s) == s
  {
    if s != "" {
      UntilTabIdentity(s[1..]);
    }
  }

  /** What survives `strip()` at the end of a header, up to the first tab. */
  predicate KeepsItsEnd(path: string) {
    '\t' !in path && (path == "" || !IsSpace(path[|path| - 1]))
  }

  /** With the "a/" or "b/" prefix, a path comes back exactly when it has no tab and no space at its end. */
  lemma PrefixedPath(path: string, prefix: string)
    requires prefix in {"a/", "b/"}
    ensures NormalizeDiffPath(prefix + path + "\n") == Ok(path) <==> KeepsItsEnd(path)
  {
    hide LStrip, RStrip, UntilTab, KeepsItsEnd;
    var full := prefix + path;
    NormalizedKeepsEnd(full + "\n");
    assert full[..2] == prefix && full[2..] == path && full[0] != "/dev/null"[0];
    if KeepsItsEnd(path) {
      PrefixKeepsEnd(path, prefix);
      Untouched(full);
    }
  }

  lemma PrefixKeepsEnd(path: string, prefix: string)
    requires prefix in {"a/", "b/"} && KeepsItsEnd(path)
    ensures KeepsItsEnd(prefix + path) && !IsSpace((prefix + path)[0])
  {
    var full := prefix + path;
    assert full[|full| - 1] == if path == "" then prefix[1] else path[|path| - 1];
  }

  /** Stripping takes only the newline off. */
  lemma Untouched(s: string)
    requires KeepsItsEnd(s) && s != "" && !IsSpace(s[0])
    ensures RStrip(LStrip(UntilTab(s + "\n"))) == s
  {
    hide LStrip, RStrip, UntilTab, IsSpace;
    var raw := s + "\n";
    UntilTabIdentity(raw);
    NothingOnTheLeft(raw);
    NewlineOnTheRight(s);
  }

  lemma NothingOnTheLeft(s: string)
    requires s != "" && !IsSpace(s[0])
    ensures LStrip(s) == s
  {
  }

  lemma NewlineOnTheRight(s: string)
    requires s != "" && !IsSpace(s[|s| - 1])
    ensures RStrip(s + "\n") == s
  {
    assert (s + "\n")[..|s|] == s;
  }

  /** Nothing with a tab or with a space at its end is ever a normalised path. */
  lemma NormalizedKeepsEnd(raw: string)
    ensures NormalizeDiffPath(raw).Ok? ==> KeepsItsEnd(NormalizeDiffPath(raw).value)
  {
    hide LStrip, RStrip, UntilTab;
    var path := RStrip(LStrip(UntilTab(raw)));
    assert '\t' !in LStrip(UntilTab(raw));
    if |path| > 2 {
      assert path[2..][|path| - 3] == path[|path| - 1];
    }
  }

  /** A path written without prefix comes back in exactly these cases. */
  lemma UnprefixedPath(path: string)
    ensures NormalizeDiffPath(path + "\n") == Ok(path) <==>
      && KeepsItsEnd(path) && path != "" && !IsSpace(path[0])
      && path != "/dev/null" && !StartsWith(path, "a/") && !StartsWith(path, "b/")
  {
    hide LStrip, RStrip, UntilTab, KeepsItsEnd;
    var raw := path + "\n";
    var stripped := RStrip(LStrip(UntilTab(raw)));
    NormalizedKeepsEnd(raw);
    assert |stripped| <= |path| + 1;
    assert NormalizeDiffPath(raw) == Ok(path) ==> stripped == path;
    if KeepsItsEnd(path) && path != "" && !IsSpace(path[0]) {
      Untouched(path);
    }
  }

  function FileHeaders(path: string): (r: seq<string>)
    ensures |r| == 2
  {
    ["--- a/" + path + "\n", "+++ b/" + path + "\n"]
  }

  lemma HeaderLineIsLine(start: string, path: string)
    requires PlainPath(path) && start != "" && forall i :: 0 <= i < |start| ==> !IsBreak(start[i])
    ensures IsLine(start + path + "\n") && Terminated(start + path + "\n") && !HasCrlf(start + path + "\n")
  {
    var l := start + path + "\n";
    forall i | 0 <= i < |l| - 1 ensures !IsBreak(l[i]) {
      if i >= |start| { assert l[i] == path[i - |start|]; }
    }
    BreaklessIsLine(l);
  }

  /** File headers for a plain path change nothing; for any other path the patch is refused. */
  lemma ParseOfPrintWithHeaders(path: string, hunks: seq<Hunk>)
    ensures WellFormed(hunks) && PlainPath(path) ==>
      Parse(path, Concat(FileHeaders(path)) + Print(hunks)) == Parse(path, Print(hunks))
    ensures !PlainPath(path) ==> Parse(path, Concat(FileHeaders(path)) + Print(hunks)).Err?
  {
    hide SplitLines, NormalizeCrlf, ParseHunks, NoLookalike, AllHeadersAgree, PrintHunks, Concat, FileHeaders,
      ParseFileHeaders, NormalizeDiffPath, Printable, StartsWith, PlainPath;
    if !PlainPath(path) {
      OddPathFails(path, Print(hunks));
    } else if WellFormed(hunks) {
      var body := PrintHunks(hunks);
      var headers := FileHeaders(path);
      PrintedNonEmpty(hunks);
      PrintedSplits(hunks);
      ParsePrintedHunks(hunks);
      SplitWithHeaders(path, hunks);
      HeadersRead(path);
      var lines := headers + body;
      assert lines[0] == headers[0] && lines[1] == headers[1] && lines[2..] == body;
      HeadersThenHunks(path, lines, body);
    }
  }

  /** The first line of such a patch is a "--- " line, and no such line names a path that is not plain. */
  lemma OddPathFails(path: string, rest: string)
    requires !PlainPath(path)
    ensures Parse(path, Concat(FileHeaders(path)) + rest).Err?
  {
    hide SplitLines, NormalizeCrlf, ParseHunks, PlainPath, NormalizeDiffPath;
    var tail := "a/" + path + "\n" + (FileHeaders(path)[1] + rest);
    TwoHeaders(path);
    assert Concat(FileHeaders(path)) + rest == "--- " + tail;
    CrlfAfterDashes(tail);
    var text := NormalizeCrlf("--- " + tail);
    DashLine(text);
    var lines := SplitLines(text);
    assert StartsWith(lines[0], "--- ");
    if NormalizeDiffPath(lines[0][4..]).Ok? {
      LineNamesPlainPath(lines[0]);
    }
  }

  lemma TwoHeaders(path: string)
    ensures Concat(FileHeaders(path)) == "--- a/" + path + "\n" + FileHeaders(path)[1]
  {
    var headers := FileHeaders(path);
    assert headers[1..] == [headers[1]] && Concat(headers[1..]) == headers[1] + "";
  }

  lemma CrlfNonEmpty(s: string)
    requires s != ""
    ensures NormalizeCrlf(s) != ""
  {
  }

  lemma CrlfAfterDashes(tail: string)
    requires tail != ""
    ensures NormalizeCrlf("--- " + tail) == "--- " + NormalizeCrlf(tail) && NormalizeCrlf(tail) != ""
  {
    hide NormalizeCrlf;
    CrlfNonEmpty(tail);
    CrlfOther(' ', tail);
    CrlfOther('-', " " + tail);
    CrlfOther('-', "- " + tail);
    CrlfOther('-', "-- " + tail);
    assert "--- " + tail == ['-'] + ("-- " + tail) && "-- " + tail == ['-'] + ("- " + tail);
    assert "- " + tail == ['-'] + (" " + tail) && " " + tail == [' '] + tail;
  }

  lemma DashLine(text: string)
    requires StartsWith(text, "--- ") && |text| > 4
    ensures |SplitLines(text)| > 0 && IsLine(SplitLines(text)[0]) && StartsWith(SplitLines(text)[0], "--- ")
  {
    hide FirstLine;
    assert forall i :: 0 <= i < 4 ==> text[i] == "--- "[i];
    BreaklessStart(text, 4);
    FirstLineIsLine(text);
    assert text[..FirstLine(text)][..4] == text[..4];
  }

  lemma {:induction false} BreaklessStart(s: string, k: nat)
    requires k < |s| && forall i :: 0 <= i < k ==> !IsBreak(s[i])
    ensures FirstLine(s) > k
  {
    if k > 0 {
      assert forall i :: 0 <= i < k - 1 ==> s[1..][i] == s[i + 1];
      BreaklessStart(s[1..], k - 1);
    }
  }

  /** Whatever a header line names has no break in it, as the line's own end is stripped. */
  lemma LineNamesPlainPath(line: string)
    requires IsLine(line) && |line| >= 4 && NormalizeDiffPath(line[4..]).Ok?
    ensures PlainPath(NormalizeDiffPath(line[4..]).value)
  {
    hide IsLine, IsBreak, IsSpace, NormalizeDiffPath;
    var path := NormalizeDiffPath(line[4..]).value;
    NormalizedKeepsEnd(line[4..]);
    var at := NormalizedSlice(line[4..]);
    forall i | 0 <= i < |path| ensures !IsBreak(path[i]) {
      assert path[i] == line[4 + at + i];
      assert path[|path| - 1] == line[4 + at + |path| - 1];
      if IsBreak(path[i]) {
        BreakEndsLine(line, 4 + at + i);
      }
    }
  }

  lemma NormalizedSlice(raw: string) returns (at: nat)
    requires NormalizeDiffPath(raw).Ok?
    ensures var path := NormalizeDiffPath(raw).value;
      at + |path| <= |raw| && path == raw[at..at + |path|]
  {
    hide LStrip, RStrip, UntilTab;
    var cut := UntilTab(raw);
    var left := LStrip(cut);
    var stripped := RStrip(left);
    at := |cut| - |left| + |stripped| - |NormalizeDiffPath(raw).value|;
    assert left == raw[|cut| - |left|..|cut|];
  }

  /** A break inside a line is at its end, or is the '\r' of a "\r\n" there: all of it is space. */
  lemma BreakEndsLine(line: string, at: nat)
    requires IsLine(line) && at < |line| && IsBreak(line[at])
    ensures forall i :: at <= i < |line| ==> IsSpace(line[i])
  {
    LineBreaksAtEnd(line, at);
  }

  lemma PlainKeepsEnd(path: string)
    requires PlainPath(path)
    ensures KeepsItsEnd(path)
  {
  }

  lemma HeadersRead(path: string)
    requires PlainPath(path)
    ensures var headers := FileHeaders(path);
      && StartsWith(headers[0], "--- ") && NormalizeDiffPath(headers[0][4..]) == Ok(path)
      && StartsWith(headers[1], "+++ ") && NormalizeDiffPath(headers[1][4..]) == Ok(path)
  {
    hide NormalizeDiffPath, PlainPath, KeepsItsEnd;
    var headers := FileHeaders(path);
    PlainKeepsEnd(path);
    PrefixedPath(path, "a/");
    PrefixedPath(path, "b/");
    assert headers[0][4..] == "a/" + path + "\n" && headers[1][4..] == "b/" + path + "\n";
  }

  lemma SplitWithHeaders(path: string, hunks: seq<Hunk>)
    requires WellFormed(hunks) && PlainPath(path)
    ensures SplitLines(NormalizeCrlf(Concat(FileHeaders(path)) + Print(hunks))) == FileHeaders(path) + PrintHunks(hunks)
  {
    hide SplitLines, NormalizeCrlf, Concat, PrintHunks, AllHeadersAgree, IsLine, HasCrlf, PlainPath, Terminated;
    var headers, body := FileHeaders(path), PrintHunks(hunks);
    var lines := headers + body;
    ConcatAppend(headers, body);
    HeaderLineIsLine("--- a/", path);
    HeaderLineIsLine("+++ b/", path);
    forall i | 0 <= i < |lines| ensures IsLine(lines[i]) && lines[i] != "" && lines[i][0] != '\n' && !HasCrlf(lines[i]) {
      if i >= 2 {
        PrintedStarts(hunks, i - 2);
        assert lines[i] == body[i - 2];
      }
    }
    forall i | 0 <= i < |lines| - 1 ensures Separable(lines[i], lines[i + 1]) {
      if i >= 2 { assert lines[i] == body[i - 2]; }
    }
    ConcatHasNoCrlf(lines);
    NormalizeCrlfIdentity(Concat(lines));
    SplitOfConcat(lines);
  }

  lemma HeadersThenHunks(path: string, lines: seq<string>, body: seq<string>)
    requires |lines| >= 2 && lines[2..] == body && |body| > 0
    requires StartsWith(lines[0], "--- ") && StartsWith(lines[1], "+++ ")
    requires NormalizeDiffPath(lines[0][4..]) == Ok(path) && NormalizeDiffPath(lines[1][4..]) == Ok(path)
    requires StartsWith(body[0], "@@ ") && !IsFileHeader(body[0])
    ensures ParseFileHeaders(path, lines) == Ok(body)
    ensures ParseFileHeaders(path, body) == Ok(body)
  {
  }

  // ----- Backward: printing what was parsed -----

  /** `lines` are the hunks as written: headers up to their '\n', body lines exactly. */
  predicate Renders(hunks: seq<Hunk>, lines: seq<string>) {
    if |hunks| == 0 then lines == []
    else
      var h := hunks[0];
      && |lines| > |h.lines|
      && RStripNewlines(lines[0]) == h.header
      && lines[1..1 + |h.lines|] == PrintBody(h.lines)
      && Renders(hunks[1..], lines[1 + |h.lines|..])
  }

  /** The parser's numbers are those of the header, and the counts are checked. */
  predicate Checked(hunks: seq<Hunk>, lines: seq<string>)
    requires Renders(hunks, lines)
  {
    |hunks| == 0 ||
    (&& HeaderSays(lines[0], hunks[0]) && CountsHold(hunks[0])
     && Checked(hunks[1..], lines[1 + |hunks[0].lines|..]))
  }

  predicate HeaderSays(line: string, h: Hunk) {
    MatchHeader(line) == Some((h.oldStart, h.oldCount, h.newCount))
  }

  predicate CountsHold(h: Hunk) {
    |OldSide(h.lines)| == h.oldCount && |NewSide(h.lines)| == h.newCount
  }

  lemma ParsedLine(line: string)
    requires ParseLine(line).Ok?
    ensures PrintLine(ParseLine(line).value) == line && !Lookalike(ParseLine(line).value)
  {
    assert line == [line[0]] + line[1..];
    ParsePrintedLine(ParseLine(line).value);
  }

  lemma {:induction false} ParsedBody(lines: seq<string>)
    requires ParseBody(lines).Ok?
    ensures var (body, rest) := ParseBody(lines).value;
      && lines == PrintBody(body) + rest
      && NoneLookalike(body)
  {
    hide ParseLine, PrintLine, Lookalike, StartsWith;
    if |lines| > 0 && !StartsWith(lines[0], "@@ ") {
      ParsedLine(lines[0]);
      ParsedBody(lines[1..]);
      var first := ParseLine(lines[0]).value;
      var (body, rest) := ParseBody(lines[1..]).value;
      assert ([first] + body)[1..] == body;
      assert lines == [PrintLine(first)] + (PrintBody(body) + rest);
    } else {
      assert [] + lines == lines;
    }
  }

  lemma {:induction false} ParsedHunks(lines: seq<string>)
    requires ParseHunks(lines).Ok?
    ensures var hunks := ParseHunks(lines).value;
      && Renders(hunks, lines) && Checked(hunks, lines) && NoLookalike(hunks)
    decreases |lines|
  {
    hide ParseHunk, RStripNewlines, OldSide, NewSide, PrintBody, NoneLookalike, ParseBody, StartsWith, MatchHeader;
    if |lines| > 0 {
      var (h, rest) := ParseHunk(lines).value;
      ParsedHunkShape(lines);
      ParsedBody(lines[1..]);
      ParsedHunks(rest);
      assert lines[1..1 + |h.lines|] == lines[1..][..|h.lines|] == PrintBody(h.lines);
      assert lines[1 + |h.lines|..] == lines[1..][|h.lines|..] == rest;
      var tail := ParseHunks(rest).value;
      assert ([h] + tail)[1..] == tail;
    }
  }

  /** The lines after the optional file headers. */
  function BodyLines(lines: seq<string>): seq<string> {
    if |lines| >= 2 && StartsWith(lines[0], "--- ") then lines[2..] else lines
  }

  /**
   * Round trip, backward: a successful parse accounts for every line of the patch after the
   * optional file headers. Nothing is dropped or invented, and the counts hold.
   */
  lemma ParseIsFaithful(path: string, diffText: string)
    ensures Parse(path, diffText).Ok? ==>
      var lines, hunks := SplitLines(NormalizeCrlf(diffText)), Parse(path, diffText).value;
      && hunks != []
      && Renders(hunks, BodyLines(lines)) && Checked(hunks, BodyLines(lines)) && NoLookalike(hunks)
      && (BodyLines(lines) != lines ==> HeadersFor(path, lines))
  {
    hide SplitLines, NormalizeCrlf, NoLookalike, ParseHunks, Renders, Checked, NormalizeDiffPath;
    var lines := SplitLines(NormalizeCrlf(diffText));
    if Parse(path, diffText).Ok? {
      var body := ParseFileHeaders(path, lines).value;
      ParsedHunks(body);
      assert body == BodyLines(lines);
    }
  }

  /** Every header line is ended, and not by a "\r\n" (which survives only from "\r\r\n"). */
  predicate HeadersClean(hunks: seq<Hunk>, lines: seq<string>)
    requires Renders(hunks, lines)
  {
    |hunks| == 0 ||
    (&& Terminated(lines[0]) && !EndsWith(lines[0], "\r\n")
     && HeadersClean(hunks[1..], lines[1 + |hunks[0].lines|..]))
  }

  /** Printing gives the written lines back exactly when the header lines are clean. */
  lemma {:induction false} PrintOfParsed(hunks: seq<Hunk>, lines: seq<string>)
    requires Renders(hunks, lines)
    requires forall i :: 0 <= i < |lines| ==> IsLine(lines[i])
    ensures |PrintHunks(hunks)| == |lines|
    ensures PrintHunks(hunks) == lines <==> HeadersClean(hunks, lines)
  {
    hide PrintBody, RStripNewlines, IsLine, Terminated, HeaderLine, EndsWith;
    if |hunks| > 0 {
      var h, n := hunks[0], |hunks[0].lines|;
      var rest := lines[1 + n..];
      forall i | 0 <= i < |rest| ensures IsLine(rest[i]) {
        assert rest[i] == lines[i + 1 + n];
      }
      PrintOfParsed(hunks[1..], rest);
      StrippedHeader(lines[0]);
      var printed := PrintHunks(hunks);
      assert lines == [lines[0]] + lines[1..1 + n] + rest;
      assert printed[0] == HeaderLine(h.header) && printed[1..1 + n] == PrintBody(h.lines);
      assert printed[1 + n..] == PrintHunks(hunks[1..]);
      assert printed == [printed[0]] + printed[1..1 + n] + printed[1 + n..];
    }
  }

  lemma StripStep(s: string)
    ensures s != "" && s[|s| - 1] == '\n' ==> RStripNewlines(s) == RStripNewlines(s[..|s| - 1])
    ensures s == "" || s[|s| - 1] != '\n' ==> RStripNewlines(s) == s
  {
  }

  /** What is left of a line without its '\n', which is at most one. */
  lemma StrippedLine(line: string)
    requires IsLine(line)
    ensures line[|line| - 1] == '\n' ==> RStripNewlines(line) == line[..|line| - 1]
    ensures line[|line| - 1] == '\n' ==> (Terminated(line[..|line| - 1]) <==> EndsWith(line, "\r\n"))
    ensures line[|line| - 1] != '\n' ==> RStripNewlines(line) == line
  {
    hide RStripNewlines, FirstLine;
    var last := |line| - 1;
    StripStep(line);
    if line[last] == '\n' {
      var front := line[..last];
      StripStep(front);
      if front != "" && IsBreak(front[last - 1]) {
        LineBreaksAtEnd(line, last - 1);
        assert line[last - 1..] == "\r\n" && front[last - 1] == '\r';
      }
      if EndsWith(line, "\r\n") {
        assert line[|line| - 2] == line[|line| - 2..][0] == '\r';
      }
    }
  }

  lemma StrippedHeader(line: string)
    requires IsLine(line)
    ensures HeaderLine(RStripNewlines(line)) == line <==> Terminated(line) && !EndsWith(line, "\r\n")
  {
    hide RStripNewlines, FirstLine;
    StrippedLine(line);
    var last := |line| - 1;
    assert EndsWith(line, "\r\n") ==> line[last] == line[|line| - 2..][1];
    if line[last] == '\n' {
      assert line[..last] + "\n" == line;
    }
  }

  lemma CrlfInSlice(s: string, a: nat, b: nat)
    requires a <= b <= |s|
    ensures HasCrlf(s[a..b]) ==> HasCrlf(s)
  {
    if i :| 0 <= i < b - a - 1 && s[a..b][i] == '\r' && s[a..b][i + 1] == '\n' {
      assert s[a + i] == '\r' && s[a + i + 1] == '\n';
    }
  }

  // ----- Parsing the reprint -----

  /** No text of a hunk holds a "\r\n"; the CRLF replacement leaves one only where "\r\r\n" was. */
  predicate NoCrlfTexts(hunks: seq<Hunk>) {
    |hunks| == 0 || (NoCrlfIn(PrintBody(hunks[0].lines)) && NoCrlfTexts(hunks[1..]))
  }

  predicate NoCrlfIn(lines: seq<string>) {
    forall i :: 0 <= i < |lines| ==> !HasCrlf(lines[i])
  }

  /** A newline at the end of a header line means nothing to the pattern. */
  lemma HeaderEndIsFree(s: string)
    ensures MatchHeader(s + "\n") == MatchHeader(s)
  {
    hide Expect, ReadRange;
    ExpectBefore(s, "@@ -");
    if Expect(s, "@@ -").Some? {
      var a := Expect(s, "@@ -").value;
      ReadRangeBefore(a);
      if ReadRange(a).Some? {
        var b := ReadRange(a).value.2;
        ExpectBefore(b, " +");
        if Expect(b, " +").Some? {
          var c := Expect(b, " +").value;
          ReadRangeBefore(c);
          if ReadRange(c).Some? {
            ExpectBefore(ReadRange(c).value.2, " @@");
          }
        }
      }
    }
  }

  lemma ExpectBefore(s: string, prefix: string)
    requires prefix in {"@@ -", " +", " @@", ","}
    ensures Expect(s + "\n", prefix)
         == if Expect(s, prefix).Some? then Some(Expect(s, prefix).value + "\n") else None
  {
    var n := |prefix|;
    if n <= |s| {
      assert (s + "\n")[..n] == s[..n] && (s + "\n")[n..] == s[n..] + "\n";
    } else if n == |s| + 1 {
      assert (s + "\n")[..n][n - 1] == '\n' != prefix[n - 1];
    }
  }

  lemma {:induction false} DigitRunBefore(s: string)
    ensures DigitRun(s + "\n") == DigitRun(s)
  {
    if s != "" {
      assert (s + "\n")[1..] == s[1..] + "\n";
      DigitRunBefore(s[1..]);
    }
  }

  lemma ReadNumberBefore(s: string)
    ensures ReadNumber(s + "\n")
         == if ReadNumber(s).Some? then Some((ReadNumber(s).value.0, ReadNumber(s).value.1 + "\n")) else None
  {
    DigitRunBefore(s);
    var n := DigitRun(s);
    assert (s + "\n")[..n] == s[..n] && (s + "\n")[n..] == s[n..] + "\n";
  }

  lemma ReadRangeBefore(s: string)
    ensures ReadRange(s + "\n")
         == if ReadRange(s).Some?
            then Some((ReadRange(s).value.0, ReadRange(s).value.1, ReadRange(s).value.2 + "\n")) else None
  {
    hide ReadNumber;
    ReadNumberBefore(s);
    if ReadNumber(s).Some? {
      var rest := ReadNumber(s).value.1;
      ExpectBefore(rest, ",");
      if StartsWith(rest, ",") {
        ReadNumberBefore(rest[1..]);
        assert (rest + "\n")[1..] == rest[1..] + "\n";
      }
    }
  }

  /** The header the parser kept agrees with its hunk again when it is printed. */
  lemma ParsedHeaderAgrees(h: Hunk, line: string)
    requires IsLine(line) && h.header == RStripNewlines(line) && HeaderSays(line, h) && CountsHold(h)
    ensures HeaderAgrees(h)
    ensures var l := HeaderLine(h.header);
      IsLine(l) && Terminated(l) && !HasCrlf(l)
  {
    hide RStripNewlines, FirstLine, OldSide, NewSide, MatchHeader;
    StrippedLine(line);
    var header, l := h.header, HeaderLine(h.header);
    HeaderEndIsFree(header);
    assert line[|line| - 1] == '\n' ==> line == header + "\n";
    assert header + "\n" == header + "\n" + "";
    assert (header + "\n")[..|header|] == header;
    StripStep(header);
    StripStep(header + "\n");
    HeaderLineFacts(line);
  }

  lemma HeaderLineFacts(line: string)
    requires IsLine(line)
    ensures var l := HeaderLine(RStripNewlines(line));
      IsLine(l) && Terminated(l) && !HasCrlf(l)
  {
    hide RStripNewlines, FirstLine;
    StrippedLine(line);
    var header := RStripNewlines(line);
    var l := HeaderLine(header);
    forall i | 0 <= i < |l| - 1 ensures !IsBreak(l[i]) {
      assert l[i] == line[i];
      if IsBreak(line[i]) {
        LineBreaksAtEnd(line, i);
      }
    }
    BreaklessIsLine(l);
  }

  lemma {:induction false} ParsedPrintable(hunks: seq<Hunk>, lines: seq<string>)
    requires Renders(hunks, lines) && Checked(hunks, lines) && NoCrlfTexts(hunks)
    requires forall i :: 0 <= i < |lines| ==> IsLine(lines[i])
    requires forall i :: 0 <= i < |lines| - 1 ==> Terminated(lines[i])
    ensures AllHeadersAgree(hunks) && Printable(PrintHunks(hunks)) && |PrintHunks(hunks)| == |lines|
  {
    hide PrintBody, RStripNewlines, IsLine, Terminated, HeaderLine, HasCrlf, HeaderSays, CountsHold, HeaderAgrees;
    if |hunks| > 0 {
      var h, n := hunks[0], |hunks[0].lines|;
      var rest := lines[1 + n..];
      ParsedHeaderAgrees(h, lines[0]);
      forall i | 0 <= i < |rest| ensures IsLine(rest[i]) && (i < |rest| - 1 ==> Terminated(rest[i])) {
        assert rest[i] == lines[i + 1 + n];
      }
      ParsedPrintable(hunks[1..], rest);
      var body, printed := PrintBody(h.lines), PrintHunks(hunks);
      forall i | 0 <= i < |printed|
        ensures IsLine(printed[i]) && !HasCrlf(printed[i]) && (i < |printed| - 1 ==> Terminated(printed[i]))
      {
        if 1 <= i <= n {
          assert printed[i] == body[i - 1] == lines[1..1 + n][i - 1] == lines[i];
        } else if i > n {
          assert printed[i] == PrintHunks(hunks[1..])[i - 1 - n];
        }
      }
    }
  }

  function CountCr(s: string): nat {
    if s == "" then 0 else (if s[0] == '\r' then 1 else 0) + CountCr(s[1..])
  }

  lemma {:induction false} CountCrAppend(a: string, b: string)
    ensures CountCr(a + b) == CountCr(a) + CountCr(b)
  {
    if a == "" {
      assert a + b == b;
    } else {
      assert (a + b)[1..] == a[1..] + b;
      CountCrAppend(a[1..], b);
    }
  }

  /** The CRLF replacement drops a '\r' exactly where there was a "\r\n". */
  lemma {:induction false} CrlfCosts(s: string)
    ensures CountCr(NormalizeCrlf(s)) <= CountCr(s)
    ensures CountCr(NormalizeCrlf(s)) == CountCr(s) ==> !HasCrlf(s)
  {
    if |s| >= 2 && s[0] == '\r' && s[1] == '\n' {
      CrlfCosts(s[2..]);
      CountCrAppend("\n", NormalizeCrlf(s[2..]));
      assert CountCr("\n") == 0 && CountCr(s[1..]) == CountCr(s[1..][1..]) && s[1..][1..] == s[2..];
    } else if |s| >= 2 {
      CrlfCosts(s[1..]);
      var t := [s[0]] + NormalizeCrlf(s[1..]);
      assert t[1..] == NormalizeCrlf(s[1..]);
      if i :| 0 <= i < |s| - 1 && s[i] == '\r' && s[i + 1] == '\n' {
        assert i > 0 && s[1..][i - 1] == '\r' && s[1..][i] == '\n';
      }
    }
  }

  lemma CountCrOfHeader(line: string)
    ensures CountCr(HeaderLine(RStripNewlines(line))) == CountCr(line)
  {
    hide CountCr, RStripNewlines;
    CountCrOfStripped(line);
    CountCrAppend(RStripNewlines(line), "\n");
    NewlineCountsNothing();
  }

  lemma NewlineCountsNothing()
    ensures CountCr("\n") == 0
  {
  }

  lemma {:induction false} CountCrOfStripped(s: string)
    ensures CountCr(RStripNewlines(s)) == CountCr(s)
    decreases |s|
  {
    hide CountCr;
    if s != "" && s[|s| - 1] == '\n' {
      CountCrOfStripped(s[..|s| - 1]);
      CountCrAppend(s[..|s| - 1], "\n");
      NewlineCountsNothing();
      assert s == s[..|s| - 1] + "\n";
    }
  }

  /** What is printed holds as many '\r' as what was parsed. */
  lemma {:induction false} RenderedCr(hunks: seq<Hunk>, lines: seq<string>)
    requires Renders(hunks, lines)
    ensures CountCr(Concat(lines)) == CountCr(Concat(PrintHunks(hunks)))
  {
    hide PrintBody, RStripNewlines, HeaderLine, CountCr, Concat;
    if |hunks| == 0 {
      assert PrintHunks(hunks) == lines;
    } else {
      var h, n := hunks[0], |hunks[0].lines|;
      var rest, body := lines[1 + n..], PrintBody(h.lines);
      RenderedCr(hunks[1..], rest);
      CountCrOfHeader(lines[0]);
      assert lines == [lines[0]] + body + rest;
      CountCrOfThree(lines[0], body, rest);
      CountCrOfThree(HeaderLine(h.header), body, PrintHunks(hunks[1..]));
    }
  }

  lemma CountCrOfThree(head: string, body: seq<string>, rest: seq<string>)
    ensures CountCr(Concat([head] + body + rest)) == CountCr(head) + CountCr(Concat(body)) + CountCr(Concat(rest))
  {
    hide CountCr;
    assert [head] + body + rest == [head] + (body + rest);
    assert ([head] + (body + rest))[1..] == body + rest;
    ConcatAppend(body, rest);
    CountCrAppend(head, Concat(body + rest));
    CountCrAppend(Concat(body), Concat(rest));
  }

  lemma {:induction false} CrlfFreeParts(lines: seq<string>)
    requires !HasCrlf(Concat(lines))
    ensures NoCrlfIn(lines)
  {
    if |lines| > 0 {
      var rest := Concat(lines[1..]);
      var all := lines[0] + rest;
      assert all[..|lines[0]|] == lines[0] && all[|lines[0]|..] == rest;
      CrlfInSlice(all, 0, |lines[0]|);
      CrlfInSlice(all, |lines[0]|, |all|);
      CrlfFreeParts(lines[1..]);
    }
  }

  lemma {:induction false} CrlfFreePrint(hunks: seq<Hunk>)
    requires NoCrlfIn(PrintHunks(hunks))
    ensures NoCrlfTexts(hunks)
  {
    hide HasCrlf, PrintBody, HeaderLine;
    if |hunks| > 0 {
      var n, printed := |hunks[0].lines|, PrintHunks(hunks);
      var body, rest := PrintBody(hunks[0].lines), PrintHunks(hunks[1..]);
      forall i | 0 <= i < |body| ensures !HasCrlf(body[i]) {
        assert body[i] == printed[i + 1];
      }
      forall i | 0 <= i < |rest| ensures !HasCrlf(rest[i]) {
        assert rest[i] == printed[i + 1 + n];
      }
      CrlfFreePrint(hunks[1..]);
    }
  }

  /** If the reprint parses back, the CRLF replacement had nothing to do in it. */
  lemma ReparsedHasNoCrlf(path: string, hunks: seq<Hunk>)
    requires Parse(path, Print(hunks)) == Ok(hunks)
    ensures NoCrlfTexts(hunks)
  {
    hide SplitLines, NormalizeCrlf, Parse, Renders, Checked, NoLookalike, HeadersFor, CountCr, HasCrlf, PrintHunks, Concat,
      NoCrlfTexts, NoCrlfIn, StartsWith;
    var text := NormalizeCrlf(Print(hunks));
    var lines := SplitLines(text);
    ParseIsFaithful(path, Print(hunks));
    RenderedCr(hunks, BodyLines(lines));
    SplitIsWellSplit(text);
    if BodyLines(lines) != lines {
      assert lines == lines[..2] + lines[2..];
      ConcatAppend(lines[..2], lines[2..]);
      CountCrAppend(Concat(lines[..2]), Concat(lines[2..]));
    }
    CrlfCosts(Print(hunks));
    CrlfFreeParts(PrintHunks(hunks));
    CrlfFreePrint(hunks);
  }

  /**
   * Re-rendering, exactly: for every successful parse, printing gives the written lines back if and
   * only if every header line is ended and not by a surviving "\r\n"; and the print parses again to
   * the same hunks if and only if no text holds a surviving "\r\n".
   */
  lemma ReprintOfParsed(path: string, diffText: string)
    ensures Parse(path, diffText).Ok? ==>
      var body, hunks := BodyLines(SplitLines(NormalizeCrlf(diffText))), Parse(path, diffText).value;
      && Renders(hunks, body)
      && (PrintHunks(hunks) == body <==> HeadersClean(hunks, body))
      && (Parse(path, Print(hunks)) == Ok(hunks) <==> NoCrlfTexts(hunks))
  {
    hide SplitLines, NormalizeCrlf, NoLookalike, Parse, Renders, Checked, NormalizeDiffPath, PrintHunks,
      AllHeadersAgree, IsLine, HasCrlf, Terminated, HeadersClean, NoCrlfTexts, StartsWith, HeadersFor, Printable;
    if Parse(path, diffText).Ok? {
      var text := NormalizeCrlf(diffText);
      var lines, hunks := SplitLines(text), Parse(path, diffText).value;
      var body := BodyLines(lines);
      ParseIsFaithful(path, diffText);
      SplitIsWellSplit(text);
      LinesBeforeLast(lines);
      var k := |lines| - |body|;
      assert body == lines[k..];
      forall i | 0 <= i < |body| ensures IsLine(body[i]) && (i < |body| - 1 ==> Terminated(body[i])) {
        assert body[i] == lines[k + i];
      }
      PrintOfParsed(hunks, body);
      if NoCrlfTexts(hunks) {
        ParsedPrintable(hunks, body);
        ParseOfPrint(path, hunks);
      }
      if Parse(path, Print(hunks)) == Ok(hunks) {
        ReparsedHasNoCrlf(path, hunks);
      }
    }
  }

  lemma LinesBeforeLast(lines: seq<string>)
    requires WellSplit(lines)
    ensures forall i :: 0 <= i < |lines| ==> IsLine(lines[i])
    ensures forall i :: 0 <= i < |lines| - 1 ==> Terminated(lines[i])
  {
    forall i | 0 <= i < |lines| - 1 ensures Terminated(lines[i]) {
      assert IsLine(lines[i]) && IsLine(lines[i + 1]) && Separable(lines[i], lines[i + 1]);
    }
  }

  // ----- Canonical headers -----

  function Decimal(n: nat): (s: string)
    ensures s != "" && forall i :: 0 <= i < |s| ==> IsDigit(s[i])
    ensures Value(s) == n
  {
    var digit := ('0' as int + n % 10) as char;
    if n < 10 then
      assert Value([]) == 0 && [digit][..0] == [];
      [digit]
    else
      var s := Decimal(n / 10) + [digit];
      assert s[..|s| - 1] == Decimal(n / 10);
      s
  }

  /** What a header's writer chooses: whether a count of 1 is left out, the new start, and a heading. */
  datatype Style = Style(shortOld: bool, shortNew: bool, newStart: nat, heading: string)

  function RangeText(start: nat, count: nat, short: bool): string {
    if short && count == 1 then Decimal(start) else Decimal(start) + "," + Decimal(count)
  }

  function HeaderText(oldStart: nat, oldCount: nat, newCount: nat, style: Style): string {
    "@@ -" + RangeText(oldStart, oldCount, style.shortOld)
    + " +" + RangeText(style.newStart, newCount, style.shortNew) + " @@" + style.heading
  }

  lemma {:induction false} ReadDecimal(digits: string, rest: string)
    requires forall i :: 0 <= i < |digits| ==> IsDigit(digits[i])
    requires rest == "" || !IsDigit(rest[0])
    ensures DigitRun(digits + rest) == |digits|
  {
    if digits == "" {
      assert digits + rest == rest;
    } else {
      assert (digits + rest)[1..] == digits[1..] + rest;
      ReadDecimal(digits[1..], rest);
    }
  }

  /** A number is read up to the text that follows it. */
  lemma DecimalThen(n: nat, rest: string)
    requires rest == "" || !IsDigit(rest[0])
    ensures var s := Decimal(n) + rest;
      DigitRun(s) == |Decimal(n)| && s[..|Decimal(n)|] == Decimal(n) && s[|Decimal(n)|..] == rest
  {
    hide Decimal, DigitRun;
    ReadDecimal(Decimal(n), rest);
  }

  lemma ReadRangeText(start: nat, count: nat, short: bool, rest: string)
    requires rest != "" && !IsDigit(rest[0]) && rest[0] != ','
    ensures ReadRange(RangeText(start, count, short) + rest) == Some((start, count, rest))
  {
    hide Decimal, DigitRun, Value;
    if short && count == 1 {
      DecimalThen(start, rest);
    } else {
      var tail := "," + (Decimal(count) + rest);
      assert RangeText(start, count, short) + rest == Decimal(start) + tail;
      DecimalThen(start, tail);
      assert tail[..1] == "," && tail[1..] == Decimal(count) + rest;
      DecimalThen(count, rest);
    }
  }

  /** Headers in every form that diff tools write are read back, whatever follows them. */
  lemma MatchHeaderText(oldStart: nat, oldCount: nat, newCount: nat, style: Style, after: string)
    ensures MatchHeader(HeaderText(oldStart, oldCount, newCount, style) + after)
         == Some((oldStart, oldCount, newCount))
  {
    hide ReadRange, RangeText, Expect;
    var line := HeaderText(oldStart, oldCount, newCount, style) + after;
    var tail := " @@" + (style.heading + after);
    var newPart := RangeText(style.newStart, newCount, style.shortNew) + tail;
    var middle := " +" + newPart;
    var oldPart := RangeText(oldStart, oldCount, style.shortOld) + middle;
    assert line == "@@ -" + oldPart;
    PrefixStripped("@@ -", oldPart);
    ReadRangeText(oldStart, oldCount, style.shortOld, middle);
    PrefixStripped(" +", newPart);
    ReadRangeText(style.newStart, newCount, style.shortNew, tail);
    PrefixStripped(" @@", style.heading + after);
  }

  lemma PrefixStripped(prefix: string, rest: string)
    ensures Expect(prefix + rest, prefix) == Some(rest)
  {
    assert (prefix + rest)[..|prefix|] == prefix;
  }
}
