/** Ordinary diffs: the hunks anyone would write are well formed, so the round trip covers them. */
module PatchCanonical {
  import opened Basics
  import opened Lines
  import opened Patch
  import opened PatchParse
  import opened PatchPrint

  predicate Breakless(s: string) {
    forall i :: 0 <= i < |s| ==> !IsBreak(s[i])
  }

  /** One line ended by '\n', with no other line break in it. */
  predicate OneLine(l: string) {
    l != "" && l[|l| - 1] == '\n' && Breakless(l[..|l| - 1])
  }

  /** A header as diff tools write it, with true counts, and ordinary lines. */
  predicate Canonical(h: Hunk, style: Style) {
    && h.header == HeaderText(h.oldStart, h.oldCount, h.newCount, style)
    && Breakless(style.heading)
    && |OldSide(h.lines)| == h.oldCount && |NewSide(h.lines)| == h.newCount
    && forall i :: 0 <= i < |h.lines| ==> OneLine(h.lines[i].text)
  }

  predicate AllCanonical(hunks: seq<Hunk>, styles: seq<Style>) {
    |styles| == |hunks| && forall k :: 0 <= k < |hunks| ==> Canonical(hunks[k], styles[k])
  }

  lemma BreaklessAppend(a: string, b: string)
    requires Breakless(a) && Breakless(b)
    ensures Breakless(a + b)
  {
  }

  lemma DecimalIsBreakless(n: nat)
    ensures Breakless(Decimal(n))
  {
    hide Decimal;
    forall i | 0 <= i < |Decimal(n)| ensures !IsBreak(Decimal(n)[i]) {
      assert IsDigit(Decimal(n)[i]);
    }
  }

  lemma RangeIsBreakless(start: nat, count: nat, short: bool)
    ensures Breakless(RangeText(start, count, short))
  {
    hide Decimal, Breakless;
    DecimalIsBreakless(start);
    DecimalIsBreakless(count);
    MarksAreBreakless();
    BreaklessAppend(Decimal(start), ",");
    BreaklessAppend(Decimal(start) + ",", Decimal(count));
  }

  lemma HeaderIsBreakless(oldStart: nat, oldCount: nat, newCount: nat, style: Style)
    requires Breakless(style.heading)
    ensures Breakless(HeaderText(oldStart, oldCount, newCount, style))
    ensures |HeaderText(oldStart, oldCount, newCount, style)| > 0
  {
    hide RangeText, Breakless;
    var old_, new_ := RangeText(oldStart, oldCount, style.shortOld), RangeText(style.newStart, newCount, style.shortNew);
    RangeIsBreakless(oldStart, oldCount, style.shortOld);
    RangeIsBreakless(style.newStart, newCount, style.shortNew);
    MarksAreBreakless();
    BreaklessAppend("@@ -", old_);
    BreaklessAppend("@@ -" + old_, " +");
    BreaklessAppend("@@ -" + old_ + " +", new_);
    BreaklessAppend("@@ -" + old_ + " +" + new_, " @@");
    BreaklessAppend("@@ -" + old_ + " +" + new_ + " @@", style.heading);
  }

  lemma MarksAreBreakless()
    ensures Breakless("@@ -") && Breakless(",") && Breakless(" +") && Breakless(" @@")
  {
  }

  lemma OneLineIsLine(l: string)
    requires OneLine(l)
    ensures IsLine(l) && Terminated(l) && !HasCrlf(l)
  {
    assert forall i :: 0 <= i < |l| - 1 ==> l[i] == l[..|l| - 1][i];
    BreaklessIsLine(l);
  }

  lemma CanonicalAgrees(h: Hunk, style: Style)
    requires Canonical(h, style)
    ensures HeaderAgrees(h) && OneLine(HeaderLine(h.header))
  {
    hide HeaderText, MatchHeader, OldSide, NewSide, RStripNewlines;
    HeaderIsBreakless(h.oldStart, h.oldCount, h.newCount, style);
    assert !Terminated(h.header);
    var line := h.header + "\n";
    assert line[..|line| - 1] == h.header;
    MatchHeaderText(h.oldStart, h.oldCount, h.newCount, style, "\n");
    StripStep(line);
    StripStep(h.header);
  }

  lemma {:induction false} PrintedLinesAreOrdinary(hunks: seq<Hunk>, styles: seq<Style>)
    requires AllCanonical(hunks, styles)
    ensures AllHeadersAgree(hunks)
    ensures forall i :: 0 <= i < |PrintHunks(hunks)| ==> OneLine(PrintHunks(hunks)[i])
  {
    hide HeaderAgrees, HeaderLine, OneLine;
    if |hunks| > 0 {
      var h := hunks[0];
      CanonicalAgrees(h, styles[0]);
      PrintedLinesAreOrdinary(hunks[1..], styles[1..]);
      forall i | 0 <= i < |h.lines| ensures OneLine(PrintBody(h.lines)[i]) {
        BodyAt(h.lines, i);
        MarkedLine(h.lines[i]);
      }
    }
  }

  lemma MarkedLine(line: HunkLine)
    requires OneLine(line.text)
    ensures OneLine(PrintLine(line))
  {
    var l := PrintLine(line);
    assert l[..|l| - 1] == [OpChar(line.op)] + line.text[..|line.text| - 1];
  }

  /** Every non-empty list of canonical hunks is well formed. */
  lemma CanonicalIsWellFormed(hunks: seq<Hunk>, styles: seq<Style>)
    requires hunks != [] && AllCanonical(hunks, styles)
    ensures WellFormed(hunks)
  {
    hide OneLine, AllHeadersAgree, PrintHunks, IsLine, HasCrlf, Terminated, Canonical;
    PrintedLinesAreOrdinary(hunks, styles);
    var lines := PrintHunks(hunks);
    forall i | 0 <= i < |lines| ensures IsLine(lines[i]) && Terminated(lines[i]) && !HasCrlf(lines[i]) {
      OneLineIsLine(lines[i]);
    }
  }

  /**
   * For them, with file headers and for every path: the text parses to the hunks if and only if the
   * path is plain and no line looks like a file header. Without file headers the path does not matter.
   */
  lemma CanonicalRoundTrip(path: string, hunks: seq<Hunk>, styles: seq<Style>)
    requires hunks != [] && AllCanonical(hunks, styles)
    ensures Parse(path, Print(hunks)) == if NoLookalike(hunks) then Ok(hunks) else Err(MultiFile)
    ensures Parse(path, Concat(FileHeaders(path)) + Print(hunks)) == Ok(hunks) <==> PlainPath(path) && NoLookalike(hunks)
  {
    hide Parse, Print, Concat, FileHeaders, PlainPath, NoLookalike, Canonical;
    CanonicalIsWellFormed(hunks, styles);
    ParseOfPrint(path, hunks);
    ParseOfPrintWithHeaders(path, hunks);
  }
}
