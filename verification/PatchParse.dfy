/** `_parse_unified_diff`: the parser as functions, and the loops that compute them. */
module PatchParse {
  import opened Basics
  import opened Lines
  import opened Patch

  // ----- Hunk headers -----

  predicate IsDigit(c: char) {
    '0' <= c <= '9'
  }

  function DigitValue(c: char): (d: nat)
    requires IsDigit(c)
    ensures d < 10
  {
    c as int - '0' as int
  }

  function DigitRun(s: string): (n: nat)
    ensures n <= |s|
    ensures forall i :: 0 <= i < n ==> IsDigit(s[i])
    ensures n < |s| ==> !IsDigit(s[n])
  {
    if s == "" || !IsDigit(s[0]) then 0 else 1 + DigitRun(s[1..])
  }

  function Value(digits: string): nat
    requires forall i :: 0 <= i < |digits| ==> IsDigit(digits[i])
  {
    if digits == "" then 0
    else Value(digits[..|digits| - 1]) * 10 + DigitValue(digits[|digits| - 1])
  }

  /** `(\d+)`: a number and what follows it. */
  function ReadNumber(s: string): Option<(nat, string)> {
    var n := DigitRun(s);
    if n == 0 then None else Some((Value(s[..n]), s[n..]))
  }

  /** `(\d+)(?:,(\d+))?`: a start, its count (1 when absent), and what follows. */
  function ReadRange(s: string): Option<(nat, nat, string)> {
    var start := ReadNumber(s);
    if start.None? then None
    else
      var rest := start.value.1;
      var count := if StartsWith(rest, ",") then ReadNumber(rest[1..]) else None;
      if count.None? then Some((start.value.0, 1, rest))
      else Some((start.value.0, count.value.0, count.value.1))
  }

  function Expect(s: string, prefix: string): Option<string> {
    StripPrefix(s, prefix)
  }

  /** `HUNK_HEADER_RE.match(line)`: old start, old count and new count. */
  function MatchHeader(line: string): Option<(nat, nat, nat)> {
    var a := Expect(line, "@@ -");
    if a.None? then None else
    var oldRange := ReadRange(a.value);
    if oldRange.None? then None else
    var b := Expect(oldRange.value.2, " +");
    if b.None? then None else
    var newRange := ReadRange(b.value);
    if newRange.None? then None else
    var c := Expect(newRange.value.2, " @@");
    if c.None? then None
    else Some((oldRange.value.0, oldRange.value.1, newRange.value.1))
  }

  // ----- Hunk bodies -----

  function OpOf(c: char): Option<Op> {
    if c == ' ' then Some(Context)
    else if c == '-' then Some(Delete)
    else if c == '+' then Some(Insert)
    else None
  }

  predicate IsFileHeader(line: string) {
    StartsWith(line, "--- ") || StartsWith(line, "+++ ")
  }

  /** One line inside a hunk. */
  function ParseLine(line: string): Result<HunkLine, PatchError> {
    if IsFileHeader(line) then Err(MultiFile)
    else if StartsWith(line, "\\ ") then Err(NoNewlineMarker)
    else if line == "" || OpOf(line[0]).None? then Err(BadLine)
    else Ok(HunkLine(OpOf(line[0]).value, line[1..]))
  }

  /** The lines of one hunk, up to the next header, and the lines that remain. */
  function ParseBody(lines: seq<string>): (r: Result<(seq<HunkLine>, seq<string>), PatchError>)
    ensures r.Ok? ==> var (body, rest) := r.value;
      && |body| + |rest| == |lines| && rest == lines[|body|..]
      && (rest == [] || StartsWith(rest[0], "@@ "))
  {
    if |lines| == 0 || StartsWith(lines[0], "@@ ") then Ok(([], lines))
    else
      var first := ParseLine(lines[0]);
      if first.Err? then Err(first.error)
      else
        var rest := ParseBody(lines[1..]);
        if rest.Err? then Err(rest.error)
        else Ok(([first.value] + rest.value.0, rest.value.1))
  }

  /** The hunk, if the header's counts are those of its lines. */
  function CheckCounts(line: string, header: (nat, nat, nat), hunkLines: seq<HunkLine>): (r: Result<Hunk, PatchError>)
    ensures r.Ok? ==> r.value.lines == hunkLines
  {
    var (oldStart, oldCount, newCount) := header;
    if |OldSide(hunkLines)| != oldCount || |NewSide(hunkLines)| != newCount then Err(CountMismatch)
    else Ok(Hunk(RStripNewlines(line), oldStart, oldCount, newCount, hunkLines))
  }

  /** One hunk: header, body, and the two counts checked. */
  function ParseHunk(lines: seq<string>): (r: Result<(Hunk, seq<string>), PatchError>)
    requires |lines| > 0
    ensures r.Ok? ==> |r.value.1| < |lines|
  {
    if IsFileHeader(lines[0]) then Err(MultiFile)
    else if !StartsWith(lines[0], "@@ ") then Err(OutsideHunk)
    else
      var header := MatchHeader(lines[0]);
      if header.None? then Err(BadHeader)
      else
        var body := ParseBody(lines[1..]);
        if body.Err? then Err(body.error)
        else
          var h := CheckCounts(lines[0], header.value, body.value.0);
          if h.Err? then Err(h.error) else Ok((h.value, body.value.1))
  }

  /** A parsed hunk took its header line and its body lines, with true counts, up to the next header. */
  lemma ParsedHunkShape(lines: seq<string>)
    requires |lines| > 0 && ParseHunk(lines).Ok?
    ensures var (h, rest) := ParseHunk(lines).value;
      && 1 + |h.lines| + |rest| == |lines| && rest == lines[1 + |h.lines|..]
      && (rest == [] || StartsWith(rest[0], "@@ "))
      && ParseBody(lines[1..]) == Ok((h.lines, rest))
      && h.header == RStripNewlines(lines[0])
      && MatchHeader(lines[0]) == Some((h.oldStart, h.oldCount, h.newCount))
      && |OldSide(h.lines)| == h.oldCount && |NewSide(h.lines)| == h.newCount
  {
    hide MatchHeader, IsFileHeader, ParseBody, OldSide, NewSide, RStripNewlines;
    var header := MatchHeader(lines[0]).value;
    assert header == (header.0, header.1, header.2);
    assert lines == [lines[0]] + lines[1..];
  }

  function ParseHunks(lines: seq<string>): Result<seq<Hunk>, PatchError>
    decreases |lines|
  {
    if |lines| == 0 then Ok([])
    else
      var first := ParseHunk(lines);
      if first.Err? then Err(first.error)
      else
        var rest := ParseHunks(first.value.1);
        if rest.Err? then Err(rest.error) else Ok([first.value.0] + rest.value)
  }

  // ----- File headers -----

  /** `str.isspace`, for `str.strip()`. */
  predicate IsSpace(c: char) {
    || IsBreak(c) || c == '\t' || c == ' ' || c == '\U{1F}' || c == '\U{A0}' || c == '\U{1680}'
    || '\U{2000}' <= c <= '\U{200A}' || c == '\U{202F}' || c == '\U{205F}' || c == '\U{3000}'
  }

  function LStrip(s: string): (r: string)
    ensures |r| <= |s| && r == s[|s| - |r|..]
    ensures r == "" || !IsSpace(r[0])
  {
    if s != "" && IsSpace(s[0]) then LStrip(s[1..]) else s
  }

  function RStrip(s: string): (r: string)
    ensures r <= s
    ensures r == "" || !IsSpace(r[|r| - 1])
  {
    if s != "" && IsSpace(s[|s| - 1]) then RStrip(s[..|s| - 1]) else s
  }

  function UntilTab(s: string): (r: string)
    ensures r <= s && '\t' !in r
  {
    if s == "" || s[0] == '\t' then "" else [s[0]] + UntilTab(s[1..])
  }

  /** `_normalize_diff_path`. */
  function NormalizeDiffPath(raw: string): Result<string, PatchError> {
    var path := RStrip(LStrip(UntilTab(raw)));
    if path == "/dev/null" || path == "" then Err(UnsupportedPath)
    else if StartsWith(path, "a/") || StartsWith(path, "b/") then Ok(path[2..])
    else Ok(path)
  }

  /** The first two lines name `path` as old and new file. */
  predicate HeadersFor(path: string, lines: seq<string>) {
    && |lines| >= 2 && StartsWith(lines[0], "--- ") && StartsWith(lines[1], "+++ ")
    && NormalizeDiffPath(lines[0][4..]) == Ok(path) && NormalizeDiffPath(lines[1][4..]) == Ok(path)
  }

  /** The optional "--- " / "+++ " pair; what remains are the hunks. */
  function ParseFileHeaders(path: string, lines: seq<string>): (r: Result<seq<string>, PatchError>)
    ensures r.Ok? ==> |lines| > 0
    ensures r.Ok? && StartsWith(lines[0], "--- ") ==> HeadersFor(path, lines) && r.value == lines[2..]
    ensures r.Ok? && !StartsWith(lines[0], "--- ") ==> r.value == lines
  {
    if |lines| == 0 then Err(BadStart)
    else if StartsWith(lines[0], "--- ") then
      if |lines| < 2 || !StartsWith(lines[1], "+++ ") then Err(MissingNewHeader)
      else
        var oldPath, newPath := NormalizeDiffPath(lines[0][4..]), NormalizeDiffPath(lines[1][4..]);
        if oldPath.Err? then Err(oldPath.error)
        else if newPath.Err? then Err(newPath.error)
        else if oldPath != newPath then Err(Rename)
        else if oldPath.value != path then Err(PathMismatch)
        else Ok(lines[2..])
    else if !StartsWith(lines[0], "@@ ") then Err(BadStart)
    else Ok(lines)
  }

  function Parse(path: string, diffText: string): Result<seq<Hunk>, PatchError> {
    var body := ParseFileHeaders(path, SplitLines(NormalizeCrlf(diffText)));
    if body.Err? then Err(body.error)
    else
      var hunks := ParseHunks(body.value);
      if hunks == Ok([]) then Err(NoHunks) else hunks
  }

  /** `_parse_unified_diff`. */
  method ParseUnifiedDiff(path: string, diffText: string) returns (r: Result<seq<Hunk>, PatchError>)
    ensures r == Parse(path, diffText)
  {
    hide ParseHunk, ParseHunks, ParseFileHeaders, SplitLines, NormalizeCrlf, Prepend;
    var lines := SplitLines(NormalizeCrlf(diffText));
    var body := ParseFileHeaders(path, lines);
    if body.Err? {
      return Err(body.error);
    }
    var index := |lines| - |body.value|;
    var hunks: seq<Hunk> := [];
    PrependNothing(ParseHunks(body.value));
    while index < |lines|
      invariant 0 <= index <= |lines|
      invariant ParseHunks(body.value) == Prepend(hunks, ParseHunks(lines[index..]))
    {
      var hunk, next, failure := ScanHunk(lines, index);
      if failure.Some? {
        PrependFailure(hunks, lines[index..], failure.value);
        return Err(failure.value);
      }
      ParseHunksStep(lines, index, hunk, next);
      PrependOne(hunks, hunk, ParseHunks(lines[next..]));
      hunks := hunks + [hunk];
      index := next;
    }
    PrependEnd(hunks, lines[index..]);
    if hunks == [] {
      return Err(NoHunks);
    }
    return Ok(hunks);
  }

  /** The body of the outer loop: header checks, the hunk's lines, and the counts. */
  method ScanHunk(lines: seq<string>, index: nat) returns (hunk: Hunk, next: nat, failure: Option<PatchError>)
    requires index < |lines|
    ensures failure.None? ==> index < next <= |lines|
    ensures ParseHunk(lines[index..]) == if failure.Some? then Err(failure.value) else Ok((hunk, lines[next..]))
  {
    hide MatchHeader, IsFileHeader, ParseBody, OldSide, NewSide, RStripNewlines, StartsWith;
    hunk, next, failure := Hunk("", 0, 0, 0, []), index, None;
    var line := lines[index];
    assert lines[index..][0] == line && lines[index..][1..] == lines[index + 1..];
    if IsFileHeader(line) {
      failure := Some(MultiFile);
      return;
    }
    if !StartsWith(line, "@@ ") {
      failure := Some(OutsideHunk);
      return;
    }
    var header := MatchHeader(line);
    if header.None? {
      failure := Some(BadHeader);
      return;
    }
    var hunkLines;
    hunkLines, next, failure := ScanBody(lines, index + 1);
    if failure.Some? {
      return;
    }
    var (oldStart, oldCount, newCount) := header.value;
    if |OldSide(hunkLines)| != oldCount || |NewSide(hunkLines)| != newCount {
      failure := Some(CountMismatch);
      return;
    }
    hunk := Hunk(RStripNewlines(line), oldStart, oldCount, newCount, hunkLines);
  }

  lemma ParseHunksStep(lines: seq<string>, index: nat, hunk: Hunk, next: nat)
    requires index < next <= |lines| && ParseHunk(lines[index..]) == Ok((hunk, lines[next..]))
    ensures ParseHunks(lines[index..]) == Prepend([hunk], ParseHunks(lines[next..]))
  {
  }

  /** The inner loop: collect the hunk's lines until the next header. */
  method ScanBody(lines: seq<string>, start: nat)
    returns (hunkLines: seq<HunkLine>, next: nat, failure: Option<PatchError>)
    requires start <= |lines|
    ensures start <= next <= |lines|
    ensures ParseBody(lines[start..])
         == if failure.Some? then Err(failure.value) else Ok((hunkLines, lines[next..]))
  {
    hunkLines, next, failure := [], start, None;
    PrependNoLines(ParseBody(lines[start..]));
    while next < |lines|
      invariant start <= next <= |lines|
      invariant ParseBody(lines[start..]) == PrependBody(hunkLines, ParseBody(lines[next..]))
    {
      var current := lines[next];
      assert lines[next..][0] == current && lines[next..][1..] == lines[next + 1..];
      if StartsWith(current, "@@ ") {
        break;
      }
      if IsFileHeader(current) {
        failure := Some(MultiFile);
        return;
      }
      if StartsWith(current, "\\ ") {
        failure := Some(NoNewlineMarker);
        return;
      }
      if current == "" || OpOf(current[0]).None? {
        failure := Some(BadLine);
        return;
      }
      PrependLine(hunkLines, HunkLine(OpOf(current[0]).value, current[1..]), ParseBody(lines[next + 1..]));
      hunkLines := hunkLines + [HunkLine(OpOf(current[0]).value, current[1..])];
      next := next + 1;
    }
    PrependLineEnd(hunkLines, lines[next..]);
  }

  ghost function Prepend(done: seq<Hunk>, r: Result<seq<Hunk>, PatchError>): Result<seq<Hunk>, PatchError> {
    if r.Err? then r else Ok(done + r.value)
  }

  ghost function PrependBody(done: seq<HunkLine>, r: Result<(seq<HunkLine>, seq<string>), PatchError>)
    : Result<(seq<HunkLine>, seq<string>), PatchError>
  {
    if r.Err? then r else Ok((done + r.value.0, r.value.1))
  }

  lemma PrependOne(done: seq<Hunk>, h: Hunk, r: Result<seq<Hunk>, PatchError>)
    ensures Prepend(done, Prepend([h], r)) == Prepend(done + [h], r)
  {
    if r.Ok? {
      assert done + ([h] + r.value) == done + [h] + r.value;
    }
  }

  lemma PrependFailure(done: seq<Hunk>, rest: seq<string>, e: PatchError)
    requires |rest| > 0 && ParseHunk(rest) == Err(e)
    ensures Prepend(done, ParseHunks(rest)) == Err(e)
  {
  }

  lemma PrependEnd(done: seq<Hunk>, rest: seq<string>)
    requires |rest| == 0
    ensures Prepend(done, ParseHunks(rest)) == Ok(done)
  {
    assert done + [] == done;
  }

  lemma PrependNothing(r: Result<seq<Hunk>, PatchError>)
    ensures Prepend([], r) == r
  {
    if r.Ok? {
      assert [] + r.value == r.value;
    }
  }

  lemma PrependNoLines(r: Result<(seq<HunkLine>, seq<string>), PatchError>)
    ensures PrependBody([], r) == r
  {
    if r.Ok? {
      assert [] + r.value.0 == r.value.0;
    }
  }

  lemma PrependLine(done: seq<HunkLine>, line: HunkLine, r: Result<(seq<HunkLine>, seq<string>), PatchError>)
    ensures PrependBody(done, PrependBody([line], r)) == PrependBody(done + [line], r)
  {
    if r.Ok? {
      assert done + ([line] + r.value.0) == done + [line] + r.value.0;
    }
  }

  lemma PrependLineEnd(done: seq<HunkLine>, rest: seq<string>)
    ensures PrependBody(done, Ok(([], rest))) == Ok((done, rest))
  {
    assert done + [] == done;
  }
}
