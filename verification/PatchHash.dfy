/** When the hash a patch returns is the hash of what the next read finds. */
module PatchHash {
  import opened Basics
  import opened Lines
  import opened Patch
  import opened PatchApply
  import opened PatchFacts
  import opened PatchParse
  import opened PatchPrint
  import opened PatchText
  import opened PatchTool
  import opened Utf8

  predicate NoCrIn(lines: seq<string>) {
    forall i :: 0 <= i < |lines| ==> '\r' !in lines[i]
  }

  lemma {:induction false} FillHasNoCr(hl: seq<HunkLine>, actual: seq<string>)
    requires |actual| == |OldSide(hl)| && NoCrIn(actual) && NoCrIn(Inserted(hl))
    ensures NoCrIn(Fill(hl, actual))
  {
    if |hl| > 0 {
      var rest := if hl[0].op.Insert? then actual else actual[1..];
      assert NoCrIn(rest);
      assert Inserted(hl) == (if hl[0].op.Insert? then [hl[0].text] else []) + Inserted(hl[1..]);
      TailHasNoCr(if hl[0].op.Insert? then [hl[0].text] else [], Inserted(hl[1..]));
      FillHasNoCr(hl[1..], rest);
    }
  }

  lemma TailHasNoCr(a: seq<string>, b: seq<string>)
    ensures NoCrIn(a + b) <==> NoCrIn(a) && NoCrIn(b)
  {
    if NoCrIn(a + b) {
      assert forall i :: 0 <= i < |a| ==> a[i] == (a + b)[i];
      assert forall i :: 0 <= i < |b| ==> b[i] == (a + b)[|a| + i];
    }
  }

  /** Hunks in any order, placed anywhere: without a '\r' in an inserted text none gets into the file. */
  lemma {:induction false} SpliceHasNoCr(norm: Normalizer, lines: seq<string>, hunks: seq<Hunk>, offset: int)
    requires NoCrIn(lines) && NoCrIn(AllInserted(hunks))
    ensures var spliced := SpliceAll(norm, lines, hunks, offset);
      spliced.Some? ==> NoCrIn(spliced.value)
    decreases |hunks|
  {
    hide Fill, Matches, Inserted, OldSide, NewSide, NoCrIn, SpliceOne;
    if |hunks| > 0 {
      TailHasNoCr(Inserted(hunks[0].lines), AllInserted(hunks[1..]));
      var next := SpliceOne(norm, lines, hunks[0], offset);
      if next.Some? {
        OneSpliceHasNoCr(norm, lines, hunks[0], offset);
        SpliceHasNoCr(norm, next.value, hunks[1..], offset + Delta(hunks[0]));
      }
    }
  }

  lemma OneSpliceHasNoCr(norm: Normalizer, lines: seq<string>, h: Hunk, offset: int)
    requires NoCrIn(lines) && NoCrIn(Inserted(h.lines)) && SpliceOne(norm, lines, h, offset).Some?
    ensures NoCrIn(SpliceOne(norm, lines, h, offset).value)
  {
    hide Fill, Inserted, OldSide, NoCrIn;
    var start := Start(h, offset);
    var end := start + |OldSide(h.lines)|;
    var actual := Clamped(lines, start, end);
    SliceHasNoCr(lines, Min(start, |lines|), Min(end, |lines|));
    SliceHasNoCr(lines, 0, Min(start, |lines|));
    SliceHasNoCr(lines, Min(end, |lines|), |lines|);
    FillHasNoCr(h.lines, actual);
    assert lines[0..Min(start, |lines|)] == lines[..Min(start, |lines|)];
    assert lines[Min(end, |lines|)..|lines|] == lines[Min(end, |lines|)..];
    TailHasNoCr(lines[..Min(start, |lines|)], Fill(h.lines, actual));
    TailHasNoCr(lines[..Min(start, |lines|)] + Fill(h.lines, actual), lines[Min(end, |lines|)..]);
  }

  lemma SliceHasNoCr(lines: seq<string>, a: nat, b: nat)
    requires NoCrIn(lines) && a <= b <= |lines|
    ensures NoCrIn(lines[a..b])
  {
  }

  lemma {:induction false} PartsHaveNoCr(lines: seq<string>)
    requires '\r' !in Concat(lines)
    ensures NoCrIn(lines)
  {
    forall i | 0 <= i < |lines| ensures '\r' !in lines[i] {
      if '\r' in lines[i] {
        CharsOfConcat(lines, i, '\r');
      }
    }
  }

  /** What a diff inserts decides whether the text it makes of a '\r'-free content holds a '\r'. */
  lemma UpdatedCr(env: Env, path: string, content: string, diff: string)
    requires '\r' !in content && Updated(env, path, content, diff).Ok?
    ensures var hunks, updated := Parse(path, diff).value, Updated(env, path, content, diff).value;
      && (!InsertsCr(hunks) ==> '\r' !in updated)
      && (Ascending(hunks) ==> ('\r' in updated <==> InsertsCr(hunks)))
  {
    hide Parse, SplitLines, Concat, SpliceAll, ReplaceAll, AllInserted, Norm, AllMatch, AllFit, AscendingFrom;
    var hunks, lines := Parse(path, diff).value, SplitLines(content);
    SplitIsWellSplit(content);
    PartsHaveNoCr(lines);
    if !InsertsCr(hunks) {
      SpliceHasNoCr(Norm(env.nfc), lines, hunks, 0);
      ConcatCr(SpliceAll(Norm(env.nfc), lines, hunks, 0).value);
    }
    if Ascending(hunks) {
      SpliceIsSimultaneous(Norm(env.nfc), lines, hunks);
      CrComesFromInserts(lines, hunks);
    }
  }

  /**
   * The hash returned by a successful patch is the hash of the next read if no inserted text of the
   * diff holds a '\r'; and for hunks in file order, only if (given that hashes do not collide).
   */
  lemma ReturnedHashIsCurrent(env: Env, path: string, disk: string, diff: string, expectedHash: Option<string>)
    requires Injective(env.hash)
    ensures var (disk', reply) := PatchFile(env, path, disk, diff, false, expectedHash, false);
      var current := reply.Patched? && reply.contentHash == env.hash(ReadText(disk'));
      reply.Patched? ==>
        && Parse(path, diff).Ok?
        && (!InsertsCr(Parse(path, diff).value) ==> current)
        && (Ascending(Parse(path, diff).value) ==> (current <==> !InsertsCr(Parse(path, diff).value)))
  {
    hide SplitLines, Concat, Parse, SpliceAll, ReadText, Utf8Length, InsertsCr, AscendingFrom;
    var (disk', reply) := PatchFile(env, path, disk, diff, false, expectedHash, false);
    if reply.Patched? {
      UpdatedCr(env, path, ReadText(disk), diff);
      ReadTextIdentity(disk');
    }
  }

  // ----- A diff that returns a stale hash -----

  function CrHunk(): Hunk {
    Hunk("@@ -1 +1,2 @@", 1, 1, 2, [HunkLine(Context, "a\n"), HunkLine(Insert, "b\r")])
  }

  lemma CrHunkSides()
    ensures OldSide(CrHunk().lines) == ["a\n"] && NewSide(CrHunk().lines) == ["a\n", "b\r"]
    ensures Fill(CrHunk().lines, ["a\n"]) == ["a\n", "b\r"]
  {
    var lines, rest := CrHunk().lines, [HunkLine(Insert, "b\r")];
    assert lines[1..] == rest && rest[1..] == [] && ["a\n"][1..] == [];
    assert OldSide(rest) == [] + OldSide(rest[1..]) && NewSide(rest) == ["b\r"] + NewSide(rest[1..]);
    assert Fill(rest, []) == ["b\r"] + Fill(rest[1..], []);
    assert OldSide(lines) == ["a\n"] + OldSide(rest) && NewSide(lines) == ["a\n"] + NewSide(rest);
    assert Fill(lines, ["a\n"]) == ["a\n"] + Fill(rest, []);
  }

  lemma CrHunkPrinted()
    ensures PrintHunks([CrHunk()]) == ["@@ -1 +1,2 @@\n", " a\n", "+b\r"]
    ensures NoLookalike([CrHunk()])
  {
    var h, rest := CrHunk(), [HunkLine(Insert, "b\r")];
    assert h.lines[1..] == rest && rest[1..] == [] && [h][1..] == [];
    assert [' '] + "a\n" == " a\n" && ['+'] + "b\r" == "+b\r";
    assert PrintLine(rest[0]) == "+b\r" && PrintLine(h.lines[0]) == " a\n";
    assert PrintBody(rest) == ["+b\r"] + PrintBody(rest[1..]);
    assert PrintBody(h.lines) == [" a\n"] + PrintBody(rest);
    assert HeaderLine(h.header) == "@@ -1 +1,2 @@\n";
    assert PrintHunks([h]) == ["@@ -1 +1,2 @@\n"] + PrintBody(h.lines) + PrintHunks([h][1..]);
    assert NoneLookalike(rest[1..]) && NoneLookalike(rest);
  }

  lemma CrHunkAgrees()
    ensures AllHeadersAgree([CrHunk()])
  {
    hide MatchHeader, RStripNewlines, OldSide, NewSide, ReadRange, DigitRun;
    var h := CrHunk();
    CrHunkSides();
    CrHunkHeader();
    MatchHeaderText(1, 1, 2, Style(true, false, 1, ""), "\n");
    StripStep("@@ -1 +1,2 @@\n");
    StripStep("@@ -1 +1,2 @@");
    assert "@@ -1 +1,2 @@\n"[..13] == "@@ -1 +1,2 @@";
    assert HeaderLine(h.header) == "@@ -1 +1,2 @@\n";
    assert HeaderAgrees(h);
    assert [h][1..] == [] && AllHeadersAgree([h][1..]);
  }

  lemma CrHunkHeader()
    ensures HeaderText(1, 1, 2, Style(true, false, 1, "")) == "@@ -1 +1,2 @@"
  {
    assert Decimal(1) == "1" && Decimal(2) == "2";
  }

  lemma CrHunkIsWellFormed()
    ensures WellFormed([CrHunk()])
  {
    hide AllHeadersAgree, PrintHunks, Printable;
    CrHunkAgrees();
    CrHunkPrinted();
    CrHunkPrintable();
  }

  lemma CrHunkPrintable()
    ensures Printable(["@@ -1 +1,2 @@\n", " a\n", "+b\r"])
  {
    hide FirstLine;
    BreaklessIsLine("@@ -1 +1,2 @@\n");
    BreaklessIsLine(" a\n");
    BreaklessIsLine("+b\r");
  }

  lemma CrHunkText()
    ensures Print([CrHunk()]) == "@@ -1 +1,2 @@\n a\n+b\r"
  {
    hide PrintHunks;
    CrHunkPrinted();
    var lines := ["@@ -1 +1,2 @@\n", " a\n", "+b\r"];
    assert lines[1..] == [" a\n", "+b\r"] && lines[1..][1..] == ["+b\r"] && lines[1..][1..][1..] == [];
    assert Concat(["+b\r"]) == "+b\r" + "";
    assert Concat([" a\n", "+b\r"]) == " a\n" + "+b\r";
  }

  lemma CrUpdated(env: Env, path: string)
    ensures Updated(env, path, "a\n", "@@ -1 +1,2 @@\n a\n+b\r") == Ok("a\nb\r")
  {
    hide Parse, SplitLines, Concat, SpliceAll, Norm, Fill, OldSide, NewSide, WellFormed, Print, NoLookalike, IsLine;
    var h := CrHunk();
    CrHunkSides();
    CrHunkPrinted();
    CrHunkIsWellFormed();
    CrHunkText();
    ParseOfPrint(path, [h]);
    OneFileLine();
    assert ["a\n"][0..1] == ["a\n"];
    OneHunk(Norm(env.nfc), ["a\n"], h, 0, 1);
    assert ["a\n"][..0] + ["a\n", "b\r"] + ["a\n"][1..] == ["a\n", "b\r"];
    TwoFileLines();
  }

  lemma OneFileLine()
    ensures SplitLines("a\n") == ["a\n"]
  {
    BreaklessIsLine("a\n");
    assert ["a\n"][1..] == [] && Concat(["a\n"]) == "a\n" + Concat([]);
    assert Concat(["a\n"]) == "a\n";
    SplitOfConcat(["a\n"]);
  }

  lemma TwoFileLines()
    ensures Concat(["a\n", "b\r"]) == "a\nb\r"
  {
    assert ["a\n", "b\r"][1..] == ["b\r"] && Concat(["b\r"]) == "b\r" + "";
  }

  lemma CrTexts()
    ensures ReadText("a\nb\r") == "a\nb\n" && ReadText("a\n") == "a\n" && Utf8Length("a\nb\r") == 4
  {
    assert "a\nb\r"[1..] == "\nb\r" && "\nb\r"[1..] == "b\r" && "b\r"[1..] == "\r" && "\r"[1..] == "";
    assert ReadText("\r") == "\n" + "" && ReadText("b\r") == "b\n" && ReadText("\nb\r") == "\nb\n";
    assert "a\n"[1..] == "\n" && "\n"[1..] == "" && ReadText("\n") == "\n";
    assert |Encode("\r")| == 1 && |Encode("b\r")| == 2 && |Encode("\nb\r")| == 3;
  }

  /** Concrete input: this edit of the file "a\n" succeeds and returns a hash that no read will give. */
  lemma CrMakesHashStale(env: Env, path: string)
    requires Injective(env.hash)
    ensures var (disk', reply) := PatchFile(env, path, "a\n", "@@ -1 +1,2 @@\n a\n+b\r", false, None, false);
      && disk' == "a\nb\r" && reply == Patched(true, env.hash("a\n"), env.hash("a\nb\r"))
      && ReadText(disk') == "a\nb\n" && reply.contentHash != env.hash(ReadText(disk'))
  {
    hide Updated, ReadText, Utf8Length, Parse, Info;
    CrUpdated(env, path);
    CrTexts();
    assert |"a\nb\r"| != |"a\n"|;
    assert "a\nb\r"[3] != "a\nb\n"[3];
  }
}
