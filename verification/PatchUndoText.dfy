/** Undo through the tool: the printed reverse of a patch, applied to the patched file's text. */
module PatchUndoText {
  import opened Basics
  import opened Lines
  import opened Patch
  import opened PatchApply
  import opened PatchCanonical
  import opened PatchFacts
  import opened PatchParse
  import opened PatchPrint
  import opened PatchText
  import opened PatchTool
  import opened PatchUndo

  /** True counts, and every text one line ended by '\n'. */
  predicate Ordinary(h: Hunk) {
    && |OldSide(h.lines)| == h.oldCount && |NewSide(h.lines)| == h.newCount
    && forall i :: 0 <= i < |h.lines| ==> OneLine(h.lines[i].text)
  }

  predicate AllOrdinary(hunks: seq<Hunk>) {
    forall k :: 0 <= k < |hunks| ==> Ordinary(hunks[k])
  }

  lemma {:induction false} InsertedIn(lines: seq<HunkLine>, t: string)
    requires t in Inserted(lines)
    ensures exists i :: 0 <= i < |lines| && lines[i].text == t
  {
    if !(lines[0].op.Insert? && lines[0].text == t) {
      InsertedIn(lines[1..], t);
      var i :| 0 <= i < |lines[1..]| && lines[1..][i].text == t;
      assert lines[i + 1].text == t;
    }
  }

  lemma {:induction false} InsertedTexts(hunks: seq<Hunk>, t: string)
    requires AllOrdinary(hunks) && t in AllInserted(hunks)
    ensures OneLine(t)
  {
    hide OneLine, OldSide, NewSide, Inserted;
    assert Ordinary(hunks[0]);
    if t in Inserted(hunks[0].lines) {
      InsertedIn(hunks[0].lines, t);
    } else {
      InsertedTexts(hunks[1..], t);
    }
  }

  function BackStyles(hunks: seq<Hunk>): (r: seq<Style>)
    ensures |r| == |hunks|
  {
    if |hunks| == 0 then [] else [BackStyle(hunks[0])] + BackStyles(hunks[1..])
  }

  lemma {:induction false} ReversedTexts(lines: seq<HunkLine>)
    ensures |ReverseLines(lines)| == |lines|
    ensures forall i :: 0 <= i < |lines| ==> ReverseLines(lines)[i].text == lines[i].text
  {
    if |lines| > 0 {
      ReversedTexts(lines[1..]);
    }
  }

  lemma BackIsCanonical(h: Hunk, n: nat, offset: int)
    requires Ordinary(h) && Min(Anchor(h), n) + offset >= 0
    ensures Canonical(Back(h, n, offset), BackStyle(h))
  {
    hide HeaderText, OneLine, OldSide, NewSide, ReverseLines;
    ReverseSides(h.lines);
    ReversedTexts(h.lines);
  }

  lemma {:induction false} ReverseIsCanonical(hunks: seq<Hunk>, n: nat, offset: int)
    requires AllOrdinary(hunks) && RunsForward(hunks, n, offset)
    ensures AllCanonical(Reverse(hunks, n, offset), BackStyles(hunks))
  {
    hide Back, BackStyle, Canonical, Ordinary;
    if |hunks| > 0 {
      BackIsCanonical(hunks[0], n, offset);
      ReverseIsCanonical(hunks[1..], n, offset + Delta(hunks[0]));
    }
  }

  /**
   * For any file and any ordinary hunks that were accepted and left neighbours apart, printing the
   * reverse and handing it to the tool gives the file with each deleted line respelled, unless a line
   * of the printed reverse looks like a file header, when it is refused.
   */
  lemma UndoThroughText(env: Env, path: string, content: string, hunks: seq<Hunk>)
    requires hunks != [] && Ascending(hunks) && AllOrdinary(hunks)
    requires AllMatch(Norm(env.nfc), SplitLines(content), hunks)
    requires StaysApart(SplitLines(content), hunks)
    ensures var lines := SplitLines(content);
      && AllFit(lines, hunks) && RunsForward(hunks, |lines|, 0)
      && var patched, reversed := Concat(ReplaceAll(lines, hunks, 0)), Reverse(hunks, |lines|, 0);
         && Updated(env, path, patched, Print(reversed))
            == (if NoLookalike(reversed) then Ok(Concat(RespellAll(lines, hunks, 0))) else Err(MultiFile))
         && (AllExactDeletes(lines, hunks) ==> Concat(RespellAll(lines, hunks, 0)) == content)
  {
    hide SplitLines, Concat, Parse, Print, SpliceAll, ReplaceAll, RespellAll, Reverse, NoLookalike, Norm, StaysApart,
      AllMatch, AllFit, AscendingFrom, RunsForward, AllCanonical, AllOrdinary, AllExactDeletes, AllInserted, IsLine;
    var lines := SplitLines(content);
    SplitIsWellSplit(content);
    forall t | t in AllInserted(hunks) ensures IsLine(t) {
      InsertedTexts(hunks, t);
      OneLineIsLine(t);
    }
    Undo(Norm(env.nfc), lines, hunks);
    ResplitsIff(lines, hunks);
    var reversed := Reverse(hunks, |lines|, 0);
    ReverseIsCanonical(hunks, |lines|, 0);
    ReverseNotEmpty(hunks, |lines|);
    CanonicalRoundTrip(path, reversed, BackStyles(hunks));
    RespellAllFacts(Norm(env.nfc), lines, hunks, 0);
    assert lines[Min(0, |lines|)..] == lines;
  }

  lemma ReverseNotEmpty(hunks: seq<Hunk>, n: nat)
    requires hunks != [] && RunsForward(hunks, n, 0)
    ensures Reverse(hunks, n, 0) != []
  {
  }
}
