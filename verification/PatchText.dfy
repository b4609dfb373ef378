/** The patched text as the next reader splits it. */
module PatchText {
  import opened Basics
  import opened Lines
  import opened Patch
  import opened PatchApply
  import opened PatchFacts
  import opened PatchParse
  import opened PatchPrint
  import opened PatchTool

  lemma {:induction false} AddedTextIn(sources: seq<Source>, p: nat)
    requires p < |sources| && sources[p].Added?
    ensures sources[p].text in AddedTexts(sources)
  {
    if p > 0 {
      AddedTextIn(sources[1..], p - 1);
    }
  }

  /** The line is whole: it ends in a terminator that nothing after it can join. */
  predicate Whole(l: string) {
    IsLine(l) && Terminated(l) && l[|l| - 1] != '\r'
  }

  /**
   * If every line of the file and every inserted text is whole, the patched text splits into
   * exactly the spliced lines, and there are as many as the hunks' deltas say.
   */
  lemma PatchedTextResplits(lines: seq<string>, hunks: seq<Hunk>)
    requires Ascending(hunks) && AllFit(lines, hunks)
    requires forall i :: 0 <= i < |lines| ==> Whole(lines[i])
    requires forall t :: t in AllInserted(hunks) ==> Whole(t)
    ensures var result := ReplaceAll(lines, hunks, 0);
      && SplitLines(Concat(result)) == result
      && |result| == |lines| + TotalDelta(hunks)
  {
    hide ReplaceAll, SplitLines, Concat, Sources, Increasing, Keeps, Deleted, AllInserted, AddedTexts, IsLine,
      AscendingFrom, AllFit, TotalDelta;
    var result, sources := ReplaceAll(lines, hunks, 0), Sources(|lines|, hunks, 0);
    ReplacedLength(lines, hunks, 0);
    ReplaceAllProvenance(lines, hunks);
    forall p | 0 <= p < |result| ensures Whole(result[p]) {
      if sources[p].Added? {
        AddedTextIn(sources, p);
      }
    }
    forall p | 0 <= p < |result| - 1 ensures Separable(result[p], result[p + 1]) {
      assert Whole(result[p]) && Whole(result[p + 1]);
    }
    SplitOfConcat(result);
  }

  /** The text that a source names. */
  function Named(lines: seq<string>, source: Source): string {
    match source
    case Kept(i) => if i < |lines| then lines[i] else ""
    case Added(t) => t
  }

  /**
   * Neighbours in the order the hunks give them stay two lines: the first is ended, and not by a
   * '\r' that a '\n' would follow.
   */
  predicate StaysApart(lines: seq<string>, hunks: seq<Hunk>)
    requires Ascending(hunks)
  {
    var sources := Sources(|lines|, hunks, 0);
    forall p :: 0 <= p < |sources| - 1 ==> Apart(Named(lines, sources[p]), Named(lines, sources[p + 1]))
  }

  predicate Apart(a: string, b: string) {
    a != "" && b != "" && Separable(a, b)
  }

  /** Of texts without '\r', only an unended one runs into the next. */
  lemma ApartIff(a: string, b: string)
    requires a != "" && b != "" && '\r' !in a
    ensures Apart(a, b) <==> Terminated(a)
  {
    assert a[|a| - 1] in a;
  }

  /**
   * The patched text splits into exactly the spliced lines if and only if neighbours stay apart,
   * which can be read off the file's lines and the hunks.
   */
  lemma ResplitsIff(lines: seq<string>, hunks: seq<Hunk>)
    requires Ascending(hunks) && AllFit(lines, hunks)
    requires forall i :: 0 <= i < |lines| ==> IsLine(lines[i])
    requires forall t :: t in AllInserted(hunks) ==> IsLine(t)
    ensures var result := ReplaceAll(lines, hunks, 0);
      SplitLines(Concat(result)) == result <==> StaysApart(lines, hunks)
  {
    hide ReplaceAll, SplitLines, Concat, Sources, Increasing, Keeps, Deleted, AllInserted, AddedTexts, AscendingFrom,
      AllFit, FirstLine, Separable;
    var result, sources := ReplaceAll(lines, hunks, 0), Sources(|lines|, hunks, 0);
    ReplaceAllProvenance(lines, hunks);
    ResplitIff(result);
    forall p | 0 <= p < |result| ensures result[p] == Named(lines, sources[p]) && IsLine(result[p]) {
      if sources[p].Added? {
        AddedTextIn(sources, p);
      }
    }
    if StaysApart(lines, hunks) {
      forall p | 0 <= p < |result| - 1 ensures Separable(result[p], result[p + 1]) {
        assert Apart(Named(lines, sources[p]), Named(lines, sources[p + 1]));
      }
    } else {
      var p :| 0 <= p < |sources| - 1 && !Apart(Named(lines, sources[p]), Named(lines, sources[p + 1]));
      assert !Separable(result[p], result[p + 1]);
    }
  }

  /** An instance: appending after a last line that lacks its newline glues the two lines together. */
  lemma AppendGlues(norm: Normalizer)
    requires norm("a") == norm("a\n")
    ensures var h := Hunk("@@ -1 +1,2 @@", 1, 1, 2, [HunkLine(Context, "a\n"), HunkLine(Insert, "b\n")]);
      && SpliceAll(norm, SplitLines("a"), [h], 0) == Some(["a", "b\n"])
      && Concat(["a", "b\n"]) == "ab\n"
      && SplitLines("ab\n") == ["ab\n"]
      && !StaysApart(["a"], [h])
  {
    hide SpliceAll, SplitLines, Concat, StaysApart, ReplaceAll;
    var lines := [HunkLine(Context, "a\n"), HunkLine(Insert, "b\n")];
    var h := Hunk("@@ -1 +1,2 @@", 1, 1, 2, lines);
    GluedSplits();
    assert lines[1..] == [HunkLine(Insert, "b\n")];
    OldSideOfTwo(lines);
    assert ["a"][0..1] == ["a"];
    assert Matches(norm, ["a"], ["a\n"]);
    OneHunk(norm, ["a"], h, 0, 1);
    assert [] + ["a", "b\n"] + [] == ["a", "b\n"];
    OneHunkAscends(h);
    SpliceIsSimultaneous(norm, ["a"], [h]);
    InsertedOfTwo(lines, h);
    BreaklessIsLine("a");
    BreaklessIsLine("b\n");
    ResplitsIff(["a"], [h]);
  }

  lemma OneHunkAscends(h: Hunk)
    ensures Ascending([h])
  {
    assert [h][1..] == [];
  }

  lemma InsertedOfTwo(lines: seq<HunkLine>, h: Hunk)
    requires lines == [HunkLine(Context, "a\n"), HunkLine(Insert, "b\n")] && h.lines == lines
    ensures AllInserted([h]) == ["b\n"]
  {
    assert lines[1..] == [HunkLine(Insert, "b\n")] && lines[1..][1..] == [];
    assert Inserted(lines[1..]) == ["b\n"];
    assert [h][1..] == [];
  }

  lemma OldSideOfTwo(lines: seq<HunkLine>)
    requires lines == [HunkLine(Context, "a\n"), HunkLine(Insert, "b\n")]
    ensures OldSide(lines) == ["a\n"] && Fill(lines, ["a"]) == ["a", "b\n"]
  {
    assert lines[1..] == [HunkLine(Insert, "b\n")] && lines[1..][1..] == [];
    assert OldSide(lines[1..]) == [];
    assert Fill(lines[1..], []) == ["b\n"];
  }

  lemma GluedSplits()
    ensures SplitLines("a") == ["a"] && SplitLines("ab\n") == ["ab\n"] && Concat(["a", "b\n"]) == "ab\n"
  {
    BreaklessIsLine("a");
    assert Concat(["a"]) == "a";
    SplitOfConcat(["a"]);
    BreaklessIsLine("ab\n");
    assert Concat(["ab\n"]) == "ab\n";
    SplitOfConcat(["ab\n"]);
    assert ["a", "b\n"][1..] == ["b\n"] && Concat(["b\n"]) == "b\n";
  }

  /** The sum of the header counts' differences. */
  function CountedDelta(hunks: seq<Hunk>): int {
    if |hunks| == 0 then 0 else hunks[0].newCount - hunks[0].oldCount + CountedDelta(hunks[1..])
  }

  lemma {:induction false} CheckedDelta(hunks: seq<Hunk>, lines: seq<string>)
    requires Renders(hunks, lines) && Checked(hunks, lines)
    ensures TotalDelta(hunks) == CountedDelta(hunks)
  {
    hide MatchHeader, OldSide, NewSide, PrintBody, RStripNewlines;
    if |hunks| > 0 {
      CheckedDelta(hunks[1..], lines[1 + |hunks[0].lines|..]);
    }
  }

  /** For parsed hunks the growth is what the headers announce. */
  lemma ParsedDelta(path: string, diffText: string)
    ensures Parse(path, diffText).Ok? ==>
      TotalDelta(Parse(path, diffText).value) == CountedDelta(Parse(path, diffText).value)
  {
    hide SplitLines, NormalizeCrlf, NoLookalike, Parse, Renders, Checked, NormalizeDiffPath, TotalDelta, CountedDelta,
      BodyLines;
    if Parse(path, diffText).Ok? {
      var lines, hunks := SplitLines(NormalizeCrlf(diffText)), Parse(path, diffText).value;
      ParseIsFaithful(path, diffText);
      CheckedDelta(hunks, BodyLines(lines));
    }
  }

  // ----- Where a '\r' in the result can come from -----

  lemma {:induction false} ConcatCr(lines: seq<string>)
    requires forall i :: 0 <= i < |lines| ==> '\r' !in lines[i]
    ensures '\r' !in Concat(lines)
  {
    if |lines| > 0 {
      ConcatCr(lines[1..]);
    }
  }

  /** Some hunk inserts a text with a '\r' in it. */
  predicate InsertsCr(hunks: seq<Hunk>) {
    exists t :: t in AllInserted(hunks) && '\r' in t
  }

  lemma {:induction false} AddedTextAt(sources: seq<Source>, t: string) returns (p: nat)
    requires t in AddedTexts(sources)
    ensures p < |sources| && sources[p] == Added(t)
  {
    if sources[0] == Added(t) {
      p := 0;
    } else {
      p := AddedTextAt(sources[1..], t);
      p := p + 1;
    }
  }

  /** Into a file without one, exactly the inserted texts bring a '\r'. */
  lemma CrComesFromInserts(lines: seq<string>, hunks: seq<Hunk>)
    requires Ascending(hunks) && AllFit(lines, hunks)
    requires forall i :: 0 <= i < |lines| ==> '\r' !in lines[i]
    ensures '\r' in Concat(ReplaceAll(lines, hunks, 0)) <==> InsertsCr(hunks)
  {
    hide ReplaceAll, Concat, Sources, Increasing, Keeps, Deleted, AllInserted, AddedTexts, AscendingFrom, AllFit;
    var result, sources := ReplaceAll(lines, hunks, 0), Sources(|lines|, hunks, 0);
    ReplaceAllProvenance(lines, hunks);
    if t :| t in AllInserted(hunks) && '\r' in t {
      var p := AddedTextAt(sources, t);
      CharsOfConcat(result, p, '\r');
    } else {
      forall p | 0 <= p < |result| ensures '\r' !in result[p] {
        if sources[p].Added? {
          AddedTextIn(sources, p);
        }
      }
      ConcatCr(result);
    }
  }
}
