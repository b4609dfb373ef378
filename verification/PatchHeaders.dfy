/** Header lines in general, and every refusal of the parser with the lines that bring it about. */
module PatchHeaders {
  import opened Basics
  import opened Lines
  import opened Patch
  import opened PatchCanonical
  import opened PatchParse
  import opened PatchPrint

  // ----- The path in a header -----

  /** The characters that `str.strip()` takes off. */
  const SPACES: set<char> := BREAKS + {
    '\t', '\U{1F}', ' ', '\U{A0}', '\U{1680}', '\U{2000}', '\U{2001}', '\U{2002}', '\U{2003}', '\U{2004}', '\U{2005}',
    '\U{2006}', '\U{2007}', '\U{2008}', '\U{2009}', '\U{200A}', '\U{202F}', '\U{205F}', '\U{3000}'}

  lemma SpaceIff(c: char)
    ensures IsSpace(c) <==> c in SPACES
  {
  }

  lemma {:induction false} UntilTabAt(raw: string, suffix: string)
    requires '\t' !in raw
    ensures UntilTab(raw + "\t" + suffix) == raw == UntilTab(raw)
  {
    var s := raw + "\t" + suffix;
    if raw != "" {
      assert s[0] == raw[0] && s[1..] == raw[1..] + "\t" + suffix;
      UntilTabAt(raw[1..], suffix);
      assert raw == [raw[0]] + raw[1..];
    }
  }

  /** From the first tab on a header line is not read: diff puts a timestamp there. */
  lemma StampIsFree(raw: string, suffix: string)
    requires '\t' !in raw
    ensures NormalizeDiffPath(raw + "\t" + suffix) == NormalizeDiffPath(raw)
  {
    hide UntilTab, LStrip, RStrip;
    UntilTabAt(raw, suffix);
  }

  lemma {:induction false} LStripEnd(s: string, c: char)
    requires IsSpace(c)
    ensures RStrip(LStrip(s + [c])) == RStrip(LStrip(s))
  {
    if s == "" {
      assert s + [c] == [c] && [c][1..] == "";
    } else if IsSpace(s[0]) {
      assert (s + [c])[1..] == s[1..] + [c];
      LStripEnd(s[1..], c);
    } else {
      assert (s + [c])[..|s|] == s;
    }
  }

  lemma {:induction false} UntilTabEnd(s: string, c: char)
    ensures UntilTab(s + [c]) == if '\t' in s || c == '\t' then UntilTab(s) else s + [c]
    ensures '\t' !in s ==> UntilTab(s) == s
  {
    if s != "" {
      assert (s + [c])[1..] == s[1..] + [c] && s == [s[0]] + s[1..];
      UntilTabEnd(s[1..], c);
      assert s + [c] == [s[0]] + (s[1..] + [c]);
    } else {
      assert s + [c] == [c] && [c][1..] == "";
    }
  }

  /** Space around the path is free. */
  lemma SpaceIsFree(raw: string, c: char)
    requires c in SPACES
    ensures NormalizeDiffPath(raw + [c]) == NormalizeDiffPath(raw)
    ensures c != '\t' ==> NormalizeDiffPath([c] + raw) == NormalizeDiffPath(raw)
  {
    hide NormalizeDiffPath;
    SpaceIff(c);
    SpaceIsIgnored(raw, c);
  }

  lemma SpaceIsIgnored(raw: string, c: char)
    requires IsSpace(c)
    ensures NormalizeDiffPath(raw + [c]) == NormalizeDiffPath(raw)
    ensures c != '\t' ==> NormalizeDiffPath([c] + raw) == NormalizeDiffPath(raw)
  {
    hide LStrip, RStrip, UntilTab, IsSpace, NormalizeDiffPath;
    UntilTabEnd(raw, c);
    LStripEnd(raw, c);
    StrippedDecides(raw + [c], raw);
    if c != '\t' {
      SpaceBefore(c, raw);
      StrippedDecides([c] + raw, raw);
    }
  }

  lemma StrippedDecides(a: string, b: string)
    requires RStrip(LStrip(UntilTab(a))) == RStrip(LStrip(UntilTab(b)))
    ensures NormalizeDiffPath(a) == NormalizeDiffPath(b)
  {
    hide LStrip, RStrip, UntilTab;
  }

  lemma SpaceBefore(c: char, raw: string)
    requires IsSpace(c) && c != '\t'
    ensures LStrip(UntilTab([c] + raw)) == LStrip(UntilTab(raw))
  {
    assert ([c] + raw)[1..] == raw;
    assert ([c] + UntilTab(raw))[1..] == UntilTab(raw);
  }

  // ----- File headers in front of a well-formed patch -----

  function NamedHeaders(oldName: string, newName: string): seq<string> {
    ["--- " + oldName + "\n", "+++ " + newName + "\n"]
  }

  predicate NoBreakIn(s: string) {
    forall i :: 0 <= i < |s| ==> !IsBreak(s[i])
  }

  lemma NameLine(mark: string, name: string)
    requires NoBreakIn(mark) && |mark| == 4 && NoBreakIn(name)
    ensures var l := mark + name + "\n";
      && IsLine(l) && Terminated(l) && !HasCrlf(l) && l != "" && l[0] == mark[0]
      && l[..4] == mark && l[4..] == name + "\n" && l[|l| - 1] == '\n'
  {
    BreaklessIsLine(mark + name + "\n");
  }

  lemma SplitWithNames(oldName: string, newName: string, hunks: seq<Hunk>)
    requires WellFormed(hunks) && NoBreakIn(oldName) && NoBreakIn(newName)
    ensures SplitLines(NormalizeCrlf(Concat(NamedHeaders(oldName, newName)) + Print(hunks)))
         == NamedHeaders(oldName, newName) + PrintHunks(hunks)
  {
    hide SplitLines, NormalizeCrlf, Concat, PrintHunks, AllHeadersAgree, IsLine, HasCrlf, Terminated, NoBreakIn;
    var headers, body := NamedHeaders(oldName, newName), PrintHunks(hunks);
    var lines := headers + body;
    ConcatAppend(headers, body);
    MarksHaveNoBreak();
    NameLine("--- ", oldName);
    NameLine("+++ ", newName);
    forall i | 0 <= i < |lines| ensures IsLine(lines[i]) && lines[i] != "" && lines[i][0] != '\n' && !HasCrlf(lines[i]) {
      if i >= 2 {
        PrintedStarts(hunks, i - 2);
        assert lines[i] == body[i - 2];
      }
    }
    forall i | 0 <= i < |lines| - 1 ensures Separable(lines[i], lines[i + 1]) {
      if i >= 2 { assert lines[i] == body[i - 2]; }
    }
    ConcatHasNoCrlf(lines);
    NormalizeCrlfIdentity(Concat(lines));
    SplitOfConcat(lines);
  }

  lemma MarksHaveNoBreak()
    ensures NoBreakIn("--- ") && NoBreakIn("+++ ")
  {
  }

  /**
   * File headers of any kind before a well-formed patch: the first name that is empty or /dev/null,
   * two different names, or a name that is not the file's, is refused as such; otherwise the headers
   * change nothing.
   */
  lemma NamedHeadersDecide(path: string, oldName: string, newName: string, hunks: seq<Hunk>)
    requires NoBreakIn(oldName) && NoBreakIn(newName)
    ensures var o, n := NormalizeDiffPath(oldName), NormalizeDiffPath(newName);
      WellFormed(hunks) ==>
        Parse(path, Concat(NamedHeaders(oldName, newName)) + Print(hunks))
        == if o.Err? || n.Err? then Err(UnsupportedPath)
           else if o.value != n.value then Err(Rename)
           else if o.value != path then Err(PathMismatch)
           else Parse(path, Print(hunks))
  {
    hide SplitLines, NormalizeCrlf, ParseHunks, AllHeadersAgree, PrintHunks, Concat, NormalizeDiffPath, Printable,
      NoBreakIn, NoLookalike, IsLine, HasCrlf, Terminated;
    if WellFormed(hunks) {
      var headers, body := NamedHeaders(oldName, newName), PrintHunks(hunks);
      MarksHaveNoBreak();
      NameLine("--- ", oldName);
      NameLine("+++ ", newName);
      NewlineIsFree(oldName);
      NewlineIsFree(newName);
      SplitWithNames(oldName, newName, hunks);
      PrintedSplits(hunks);
      PrintedNonEmpty(hunks);
      ParsePrintedHunks(hunks);
      var lines := headers + body;
      assert lines[0] == headers[0] && lines[1] == headers[1] && lines[2..] == body;
      HunksAtOnce(path, body);
    }
  }

  lemma NewlineIsFree(name: string)
    ensures NormalizeDiffPath(name + "\n") == NormalizeDiffPath(name)
    ensures NormalizeDiffPath(name).Err? ==> NormalizeDiffPath(name) == Err(UnsupportedPath)
  {
    hide UntilTab, LStrip, RStrip;
    SpaceIsFree(name, '\n');
    assert name + "\n" == name + ['\n'];
  }

  /** The headers diff writes, with any text after a tab: for a plain path they change nothing. */
  lemma StampedHeaders(path: string, oldStamp: string, newStamp: string, hunks: seq<Hunk>)
    requires NoBreakIn(oldStamp) && NoBreakIn(newStamp) && PlainPath(path)
    ensures WellFormed(hunks) ==>
      Parse(path, Concat(NamedHeaders("a/" + path + "\t" + oldStamp, "b/" + path + "\t" + newStamp)) + Print(hunks))
      == Parse(path, Print(hunks))
  {
    hide Parse, Concat, Print, NormalizeDiffPath, WellFormed;
    StampedName("a/", path, oldStamp);
    StampedName("b/", path, newStamp);
    NamedHeadersDecide(path, "a/" + path + "\t" + oldStamp, "b/" + path + "\t" + newStamp, hunks);
  }

  lemma StampedName(prefix: string, path: string, stamp: string)
    requires prefix in {"a/", "b/"} && NoBreakIn(stamp) && PlainPath(path)
    ensures NoBreakIn(prefix + path + "\t" + stamp)
    ensures NormalizeDiffPath(prefix + path + "\t" + stamp) == Ok(path)
  {
    hide NormalizeDiffPath;
    assert '\t' !in prefix + path;
    StampIsFree(prefix + path, stamp);
    PlainKeepsEnd(path);
    PrefixedPath(path, prefix);
    NewlineIsFree(prefix + path);
  }

  /** For canonical hunks: with headers as diff stamps them the print parses back unless a line looks like a header. */
  lemma StampedRoundTrip(path: string, oldStamp: string, newStamp: string, hunks: seq<Hunk>, styles: seq<Style>)
    requires hunks != [] && AllCanonical(hunks, styles)
    requires NoBreakIn(oldStamp) && NoBreakIn(newStamp) && PlainPath(path)
    ensures Parse(path, Concat(NamedHeaders("a/" + path + "\t" + oldStamp, "b/" + path + "\t" + newStamp)) + Print(hunks))
         == if NoLookalike(hunks) then Ok(hunks) else Err(MultiFile)
  {
    hide Parse, Concat, Print, WellFormed, Canonical, NoLookalike, NamedHeaders, PlainPath, NoBreakIn;
    CanonicalIsWellFormed(hunks, styles);
    StampedHeaders(path, oldStamp, newStamp, hunks);
    ParseOfPrint(path, hunks);
  }

  // ----- What else is refused -----

  /** A patch must begin with a hunk or with two file headers, and must hold a hunk. */
  lemma FirstLineDecides(path: string, text: string)
    ensures var lines := SplitLines(NormalizeCrlf(text));
      && (lines == [] ==> Parse(path, text) == Err(BadStart))
      && (lines != [] && !StartsWith(lines[0], "--- ") && !StartsWith(lines[0], "@@ ") ==>
            Parse(path, text) == Err(BadStart))
      && (lines != [] && StartsWith(lines[0], "--- ") && (|lines| < 2 || !StartsWith(lines[1], "+++ ")) ==>
            Parse(path, text) == Err(MissingNewHeader))
      && (|lines| == 2 && HeadersFor(path, lines) ==> Parse(path, text) == Err(NoHunks))
  {
    hide SplitLines, NormalizeCrlf, NormalizeDiffPath, StartsWith;
  }

  /** The line cannot stand in a hunk, and how it is refused. */
  function BadLineError(line: string): Option<PatchError> {
    if StartsWith(line, "--- ") || StartsWith(line, "+++ ") then Some(MultiFile)
    else if StartsWith(line, "\\ ") then Some(NoNewlineMarker)
    else if line == "" || line[0] !in {' ', '+', '-'} then Some(BadLine)
    else None
  }

  /** A hunk's body ends at the first line that cannot stand in it, and the patch is refused for that line. */
  lemma {:induction false} BodyStopsAt(body: seq<HunkLine>, bad: string, rest: seq<string>)
    requires NoneLookalike(body) && !StartsWith(bad, "@@ ") && BadLineError(bad).Some?
    ensures ParseBody(PrintBody(body) + [bad] + rest) == Err(BadLineError(bad).value)
  {
    hide Lookalike, PrintLine;
    var all := PrintBody(body) + [bad] + rest;
    if |body| == 0 {
      assert all[0] == bad;
    } else {
      assert all[0] == PrintLine(body[0]) && all[1..] == PrintBody(body[1..]) + [bad] + rest;
      ParsePrintedLine(body[0]);
      hide ParseLine, BadLineError, StartsWith;
      BodyStopsAt(body[1..], bad, rest);
    }
  }

  /** One hunk, in full: its header must match, its lines must be hunk lines, and its counts must be theirs. */
  lemma HunkDecides(line: string, body: seq<HunkLine>, rest: seq<string>)
    requires StartsWith(line, "@@ ") && (rest == [] || StartsWith(rest[0], "@@ "))
    ensures var header := MatchHeader(line);
      ParseHunk([line] + PrintBody(body) + rest)
      == if header.None? then Err(BadHeader)
         else if !NoneLookalike(body) then Err(MultiFile)
         else if |OldSide(body)| != header.value.1 || |NewSide(body)| != header.value.2 then Err(CountMismatch)
         else Ok((Hunk(RStripNewlines(line), header.value.0, header.value.1, header.value.2, body), rest))
  {
    hide MatchHeader, OldSide, NewSide, RStripNewlines, ParseBody, NoneLookalike, PrintBody;
    var all := [line] + PrintBody(body) + rest;
    assert all[0] == line && all[1..] == PrintBody(body) + rest;
    ParsePrintedBody(body, rest);
    HunkStart(line);
  }

  lemma HunkStart(line: string)
    requires StartsWith(line, "@@ ")
    ensures !IsFileHeader(line)
  {
    assert line[0] == line[..3][0] == '@';
    assert |line| >= 4 ==> line[..4][0] == '@';
  }

  lemma StartsLater(hunks: seq<Hunk>, rest: seq<string>)
    requires AllHeadersAgree(hunks) && NoLookalike(hunks) && (rest == [] || StartsWith(rest[0], "@@ "))
    ensures var later := PrintHunks(hunks) + rest; later == [] || StartsWith(later[0], "@@ ")
  {
    hide MatchHeader, PrintBody, HeaderLine, NoneLookalike, ParseHunks, StartsWith, AllHeadersAgree, NoLookalike;
    ParsePrintedHunks(hunks);
    if PrintHunks(hunks) == [] {
      assert PrintHunks(hunks) + rest == rest;
    }
  }

  lemma FirstHunkDecides(h: Hunk, later: seq<string>)
    requires HeaderAgrees(h) && NoneLookalike(h.lines) && (later == [] || StartsWith(later[0], "@@ "))
    ensures ParseHunk([HeaderLine(h.header)] + PrintBody(h.lines) + later) == Ok((h, later))
  {
    hide MatchHeader, RStripNewlines, OldSide, NewSide, PrintBody, HeaderLine, NoneLookalike, ParseHunk, StartsWith;
    MatchedStart(HeaderLine(h.header));
    HunkDecides(HeaderLine(h.header), h.lines, later);
  }

  /** Hunks that are in order are passed over: what comes after them decides. */
  lemma {:induction false} LaterHunksDecide(hunks: seq<Hunk>, rest: seq<string>)
    requires AllHeadersAgree(hunks) && NoLookalike(hunks) && (rest == [] || StartsWith(rest[0], "@@ "))
    ensures ParseHunks(PrintHunks(hunks) + rest) == Prepend(hunks, ParseHunks(rest))
  {
    hide HeaderAgrees, PrintBody, HeaderLine, NoneLookalike, ParseHunk, ParseHunks, StartsWith, Prepend;
    if |hunks| == 0 {
      assert PrintHunks(hunks) + rest == rest;
      PrependNothing(ParseHunks(rest));
    } else {
      var h, later := hunks[0], PrintHunks(hunks[1..]) + rest;
      var all := [HeaderLine(h.header)] + PrintBody(h.lines) + later;
      assert PrintHunks(hunks) + rest == all;
      StartsLater(hunks[1..], rest);
      FirstHunkDecides(h, later);
      LaterHunksDecide(hunks[1..], rest);
      OneThenRest(all, h, later);
      PrependTwice(h, hunks[1..], ParseHunks(rest));
      assert [h] + hunks[1..] == hunks;
    }
  }

  lemma PrependTwice(h: Hunk, hunks: seq<Hunk>, r: Result<seq<Hunk>, PatchError>)
    ensures Prepend([h], Prepend(hunks, r)) == Prepend([h] + hunks, r)
  {
    if r.Ok? {
      assert [h] + (hunks + r.value) == [h] + hunks + r.value;
    }
  }

  lemma OneThenRest(lines: seq<string>, h: Hunk, rest: seq<string>)
    requires |lines| > 0 && ParseHunk(lines) == Ok((h, rest))
    ensures ParseHunks(lines) == Prepend([h], ParseHunks(rest))
  {
    hide ParseHunk;
  }

  // ----- The header pattern, in both directions -----

  predicate Digits(s: string) {
    s != "" && forall i :: 0 <= i < |s| ==> '0' <= s[i] <= '9'
  }

  /** The number that decimal digits stand for. */
  function NumberOf(s: string): nat
    requires Digits(s)
  {
    (s[|s| - 1] as int - '0' as int) + if |s| == 1 then 0 else 10 * NumberOf(s[..|s| - 1])
  }

  lemma {:induction false} ValueIsNumber(s: string)
    requires Digits(s)
    ensures Value(s) == NumberOf(s)
  {
    if |s| > 1 {
      ValueIsNumber(s[..|s| - 1]);
    } else {
      assert s[..|s| - 1] == "";
    }
  }

  /** `\d+` with an optional `,\d+`: start and count, where no count means 1. */
  ghost predicate IsRange(text: string, start: nat, count: nat) {
    || (Digits(text) && NumberOf(text) == start && count == 1)
    || exists a, b :: IsRangePair(text, a, b) && NumberOf(a) == start && NumberOf(b) == count
  }

  predicate IsRangePair(text: string, a: string, b: string) {
    Digits(a) && Digits(b) && text == a + "," + b
  }

  ghost predicate IsHeader(line: string, oldRange: string, newRange: string, newStart: nat, tail: string,
                           header: (nat, nat, nat)) {
    && line == "@@ -" + oldRange + " +" + newRange + " @@" + tail
    && IsRange(oldRange, header.0, header.1) && IsRange(newRange, newStart, header.2)
  }

  lemma ReadNumberForm(s: string)
    requires ReadNumber(s).Some?
    ensures var (n, rest) := ReadNumber(s).value; exists a :: Digits(a) && NumberOf(a) == n && s == a + rest
  {
    var k := DigitRun(s);
    ValueIsNumber(s[..k]);
    assert s == s[..k] + s[k..];
  }

  lemma ReadRangeForm(s: string) returns (text: string)
    requires ReadRange(s).Some?
    ensures var (start, count, rest) := ReadRange(s).value; s == text + rest && IsRange(text, start, count)
  {
    hide ReadNumber;
    ReadNumberForm(s);
    var (start, after) := ReadNumber(s).value;
    var a :| Digits(a) && NumberOf(a) == start && s == a + after;
    if StartsWith(after, ",") && ReadNumber(after[1..]).Some? {
      ReadNumberForm(after[1..]);
      var (count, rest) := ReadNumber(after[1..]).value;
      var b :| Digits(b) && NumberOf(b) == count && after[1..] == b + rest;
      assert after == "," + after[1..];
      text := a + "," + b;
      assert IsRangePair(text, a, b);
      assert s == text + rest;
    } else {
      text := a;
    }
  }

  lemma ReadNumberOf(a: string, rest: string)
    requires Digits(a) && (rest == "" || !('0' <= rest[0] <= '9'))
    ensures ReadNumber(a + rest) == Some((NumberOf(a), rest))
  {
    ReadDecimal(a, rest);
    ValueIsNumber(a);
    assert (a + rest)[..|a|] == a && (a + rest)[|a|..] == rest;
  }

  lemma ReadRangeOf(text: string, start: nat, count: nat, rest: string)
    requires IsRange(text, start, count) && rest != "" && rest[0] == ' '
    ensures ReadRange(text + rest) == Some((start, count, rest))
  {
    hide ReadNumber, NumberOf;
    if Digits(text) && NumberOf(text) == start && count == 1 {
      ReadNumberOf(text, rest);
    } else {
      var a, b :| IsRangePair(text, a, b) && NumberOf(a) == start && NumberOf(b) == count;
      assert text + rest == a + ("," + (b + rest));
      ReadNumberOf(a, "," + (b + rest));
      ReadNumberOf(b, rest);
      assert ("," + (b + rest))[1..] == b + rest && ("," + (b + rest))[..1] == ",";
    }
  }

  /** The pattern matches exactly the lines of this form, and reads these numbers. */
  lemma MatchHeaderIff(line: string, header: (nat, nat, nat))
    ensures MatchHeader(line) == Some(header) <==>
      exists oldRange, newRange, newStart, tail :: IsHeader(line, oldRange, newRange, newStart, tail, header)
  {
    hide ReadRange, IsRange, Expect;
    if MatchHeader(line) == Some(header) {
      MatchedForm(line, header);
    }
    forall oldRange, newRange, newStart, tail | IsHeader(line, oldRange, newRange, newStart, tail, header)
      ensures MatchHeader(line) == Some(header)
    {
      FormMatches(line, oldRange, newRange, newStart, tail, header);
    }
  }

  lemma FormMatches(line: string, oldRange: string, newRange: string, newStart: nat, tail: string,
                    header: (nat, nat, nat))
    requires IsHeader(line, oldRange, newRange, newStart, tail, header)
    ensures MatchHeader(line) == Some(header)
  {
    hide ReadRange, IsRange, Expect;
    var last := " @@" + tail;
    var middle := " +" + (newRange + last);
    assert line == "@@ -" + (oldRange + middle);
    PrefixStripped("@@ -", oldRange + middle);
    ReadRangeOf(oldRange, header.0, header.1, middle);
    PrefixStripped(" +", newRange + last);
    ReadRangeOf(newRange, newStart, header.2, last);
    PrefixStripped(" @@", tail);
    assert header == (header.0, header.1, header.2);
  }

  lemma MatchedForm(line: string, header: (nat, nat, nat))
    requires MatchHeader(line) == Some(header)
    ensures exists oldRange, newRange, newStart, tail :: IsHeader(line, oldRange, newRange, newStart, tail, header)
  {
    hide ReadRange, IsRange;
    var a := Expect(line, "@@ -").value;
    var oldRange := ReadRangeForm(a);
    var b := Expect(ReadRange(a).value.2, " +").value;
    var newRange := ReadRangeForm(b);
    var tail := Expect(ReadRange(b).value.2, " @@").value;
    assert line == "@@ -" + (oldRange + (" +" + (newRange + (" @@" + tail))));
    assert IsHeader(line, oldRange, newRange, ReadRange(b).value.0, tail, header);
  }
}
