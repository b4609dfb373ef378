/** Applying hunks: the in-place splice loop and the one-pass replacement it refines. */
module PatchApply {
  import opened Basics
  import opened Lines
  import opened Patch

  type Normalizer = string -> string

  /** The file's lines agree with the hunk's old side up to the normaliser. */
  predicate Matches(norm: Normalizer, actual: seq<string>, expected: seq<string>) {
    && |actual| == |expected|
    && forall i :: 0 <= i < |actual| ==> norm(actual[i]) == norm(expected[i])
  }

  /** The replacement for `actual`: context keeps the file's own line, inserts bring their text. */
  function Fill(lines: seq<HunkLine>, actual: seq<string>): (r: seq<string>)
    requires |actual| == |OldSide(lines)|
    ensures |r| == |NewSide(lines)|
  {
    if |lines| == 0 then []
    else match lines[0].op
      case Context => [actual[0]] + Fill(lines[1..], actual[1..])
      case Delete => Fill(lines[1..], actual[1..])
      case Insert => [lines[0].text] + Fill(lines[1..], actual)
  }

  function Start(h: Hunk, offset: int): nat {
    Max(0, h.oldStart - 1 + offset)
  }

  /** One turn of the splice loop. */
  function SpliceOne(norm: Normalizer, lines: seq<string>, h: Hunk, offset: int): Option<seq<string>> {
    var start := Start(h, offset);
    var end := start + |OldSide(h.lines)|;
    var actual := Clamped(lines, start, end);
    if !Matches(norm, actual, OldSide(h.lines)) then None
    else Some(lines[..Min(start, |lines|)] + Fill(h.lines, actual) + lines[Min(end, |lines|)..])
  }

  function SpliceAll(norm: Normalizer, lines: seq<string>, hunks: seq<Hunk>, offset: int): Option<seq<string>>
    decreases |hunks|
  {
    if |hunks| == 0 then Some(lines)
    else
      var next := SpliceOne(norm, lines, hunks[0], offset);
      if next.None? then None
      else SpliceAll(norm, next.value, hunks[1..], offset + Delta(hunks[0]))
  }

  /** `_apply_hunks`. */
  method ApplyHunks(norm: Normalizer, content: string, hunks: seq<Hunk>) returns (r: Result<string, PatchError>)
    ensures var spliced := SpliceAll(norm, SplitLines(content), hunks, 0);
      r == if spliced.None? then Err(ContextMismatch) else Ok(Concat(spliced.value))
  {
    var resultLines := SplitLines(content);
    var offset := 0;
    var k := 0;
    while k < |hunks|
      invariant 0 <= k <= |hunks|
      invariant SpliceAll(norm, SplitLines(content), hunks, 0)
             == SpliceAll(norm, resultLines, hunks[k..], offset)
    {
      assert hunks[k..][0] == hunks[k] && hunks[k..][1..] == hunks[k + 1..];
      var next := SpliceHunk(norm, resultLines, hunks[k], offset);
      if next.None? {
        return Err(ContextMismatch);
      }
      resultLines := next.value;
      offset := offset + Delta(hunks[k]);
      k := k + 1;
    }
    return Ok(Concat(resultLines));
  }

  /** One turn of the loop: the context check and the slice assignment. */
  method SpliceHunk(norm: Normalizer, resultLines: seq<string>, h: Hunk, offset: int)
    returns (next: Option<seq<string>>)
    ensures next == SpliceOne(norm, resultLines, h, offset)
  {
    var oldSegment := OldSide(h.lines);
    var startIndex := Max(0, h.oldStart - 1 + offset);
    var endIndex := startIndex + |oldSegment|;
    if !Matches(norm, Clamped(resultLines, startIndex, endIndex), oldSegment) {
      return None;
    }
    var newSegment := BuildSegment(resultLines, startIndex, h);
    next := Some(resultLines[..Min(startIndex, |resultLines|)] + newSegment
                 + resultLines[Min(endIndex, |resultLines|)..]);
  }

  /** The inner loop: `file_pos` walks the file while the hunk's lines are read. */
  method BuildSegment(resultLines: seq<string>, startIndex: nat, h: Hunk) returns (newSegment: seq<string>)
    requires |Clamped(resultLines, startIndex, startIndex + |OldSide(h.lines)|)| == |OldSide(h.lines)|
    ensures newSegment == Fill(h.lines, Clamped(resultLines, startIndex, startIndex + |OldSide(h.lines)|))
  {
    hide Fill, OldSide;
    newSegment := [];
    var filePos: nat := startIndex;
    var j := 0;
    ghost var actual := Clamped(resultLines, startIndex, startIndex + |OldSide(h.lines)|);
    ghost var rest := actual;
    assert h.lines[0..] == h.lines && [] + Fill(h.lines, actual) == Fill(h.lines, actual);
    while j < |h.lines|
      invariant 0 <= j <= |h.lines|
      invariant |rest| == |OldSide(h.lines[j..])|
      invariant |rest| > 0 ==> filePos + |rest| <= |resultLines| && rest == resultLines[filePos..filePos + |rest|]
      invariant Fill(h.lines, actual) == newSegment + Fill(h.lines[j..], rest)
    {
      assert h.lines[j..][1..] == h.lines[j + 1..];
      FillStep(h.lines[j..], rest, newSegment);
      match h.lines[j].op {
        case Context =>
          newSegment := newSegment + [resultLines[filePos]];
          filePos := filePos + 1;
          rest := rest[1..];
        case Delete =>
          filePos := filePos + 1;
          rest := rest[1..];
        case Insert =>
          newSegment := newSegment + [h.lines[j].text];
      }
      j := j + 1;
    }
    FillNothing(h.lines[j..], rest, newSegment);
  }

  /** What one hunk line consumes of the old side and adds to the new one. */
  lemma FillStep(hl: seq<HunkLine>, rest: seq<string>, before: seq<string>)
    requires |hl| > 0 && |rest| == |OldSide(hl)|
    ensures hl[0].op.Insert? ==>
      && |rest| == |OldSide(hl[1..])|
      && before + Fill(hl, rest) == before + [hl[0].text] + Fill(hl[1..], rest)
    ensures !hl[0].op.Insert? ==> |rest| > 0 && |rest[1..]| == |OldSide(hl[1..])|
    ensures hl[0].op.Context? ==> before + Fill(hl, rest) == before + [rest[0]] + Fill(hl[1..], rest[1..])
    ensures hl[0].op.Delete? ==> before + Fill(hl, rest) == before + Fill(hl[1..], rest[1..])
  {
  }

  lemma FillNothing(hl: seq<HunkLine>, rest: seq<string>, before: seq<string>)
    requires hl == [] && |rest| == |OldSide(hl)|
    ensures before + Fill(hl, rest) == before
  {
  }

  // ----- The one-pass reference -----

  /** The 0-based index in the ORIGINAL lines at which the code places a hunk. */
  function Anchor(h: Hunk): nat {
    Max(0, h.oldStart - 1)
  }

  function End(h: Hunk): nat {
    Anchor(h) + |OldSide(h.lines)|
  }

  /** Hunks in file order that do not overlap, from index `pos` on; only the first may start at 0. */
  predicate AscendingFrom(hunks: seq<Hunk>, pos: nat) {
    |hunks| == 0 ||
    (&& pos <= Anchor(hunks[0])
     && (|hunks| > 1 ==> hunks[1].oldStart >= 1)
     && AscendingFrom(hunks[1..], End(hunks[0])))
  }

  predicate Ascending(hunks: seq<Hunk>) {
    AscendingFrom(hunks, 0)
  }

  /** The original lines a hunk claims. */
  function Claimed(lines: seq<string>, h: Hunk): seq<string> {
    Clamped(lines, Anchor(h), End(h))
  }

  /** Every old side is found in the ORIGINAL lines; `AllMatchEach` says it hunk by hunk. */
  predicate AllMatch(norm: Normalizer, lines: seq<string>, hunks: seq<Hunk>) {
    |hunks| == 0 ||
    (Matches(norm, Claimed(lines, hunks[0]), OldSide(hunks[0].lines)) && AllMatch(norm, lines, hunks[1..]))
  }

  lemma {:induction false} AllMatchEach(norm: Normalizer, lines: seq<string>, hunks: seq<Hunk>)
    ensures AllMatch(norm, lines, hunks) <==>
      forall i :: 0 <= i < |hunks| ==> Matches(norm, Claimed(lines, hunks[i]), OldSide(hunks[i].lines))
  {
    if |hunks| > 0 {
      AllMatchEach(norm, lines, hunks[1..]);
      assert forall i :: 0 < i < |hunks| ==> hunks[i] == hunks[1..][i - 1];
      assert forall i :: 0 <= i < |hunks[1..]| ==> hunks[1..][i] == hunks[i + 1];
    }
  }

  /** Every hunk's claim lies inside the file. */
  predicate AllFit(lines: seq<string>, hunks: seq<Hunk>) {
    |hunks| == 0 ||
    (|Claimed(lines, hunks[0])| == |OldSide(hunks[0].lines)| && AllFit(lines, hunks[1..]))
  }

  lemma {:induction false} MatchingFits(norm: Normalizer, lines: seq<string>, hunks: seq<Hunk>)
    requires AllMatch(norm, lines, hunks)
    ensures AllFit(lines, hunks)
  {
    if |hunks| > 0 {
      MatchingFits(norm, lines, hunks[1..]);
    }
  }

  /** All hunks replaced at once, by one walk over the original lines. */
  function ReplaceAll(lines: seq<string>, hunks: seq<Hunk>, pos: nat): seq<string>
    requires AscendingFrom(hunks, pos) && AllFit(lines, hunks)
  {
    if |hunks| == 0 then lines[Min(pos, |lines|)..]
    else
      Clamped(lines, pos, Anchor(hunks[0]))
      + Fill(hunks[0].lines, Claimed(lines, hunks[0]))
      + ReplaceAll(lines, hunks[1..], End(hunks[0]))
  }

  /** Indexing past `done` in the current list is indexing past `pos` in the original one. */
  lemma ClampedShift(lines: seq<string>, done: seq<string>, pos: nat, offset: int, a: nat, b: nat)
    requires |done| == Min(pos, |lines|) + offset && pos <= a <= b
    ensures a + offset >= 0
    ensures var current := done + lines[Min(pos, |lines|)..];
      && Clamped(current, a + offset, b + offset) == Clamped(lines, a, b)
      && current[Min(b + offset, |current|)..] == lines[Min(b, |lines|)..]
      && current[..Min(a + offset, |current|)] == done + Clamped(lines, pos, a)
  {
    var current := done + lines[Min(pos, |lines|)..];
    var p, x, y := Min(pos, |lines|), Min(a, |lines|), Min(b, |lines|);
    assert Min(a + offset, |current|) == x + offset;
    assert Min(b + offset, |current|) == y + offset;
    assert forall i :: p <= i < |lines| ==> current[i + offset] == lines[i];
    assert current[..x + offset] == done + lines[p..x];
    assert current[x + offset..y + offset] == lines[x..y];
    assert current[y + offset..] == lines[y..];
  }

  lemma ClampedLength<T>(s: seq<T>, a: nat, b: nat)
    requires a <= b
    ensures |Clamped(s, a, b)| == Min(b, |s|) - Min(a, |s|)
  {
  }

  lemma MatchesLength(norm: Normalizer, actual: seq<string>, expected: seq<string>)
    ensures Matches(norm, actual, expected) ==> |actual| == |expected|
  {
  }

  /** One hunk: the loop's turn consumes `lines[pos..End(h)]` and moves its replacement to `done`. */
  lemma SpliceOneStep(norm: Normalizer, lines: seq<string>, done: seq<string>, h: Hunk, pos: nat, offset: int)
    returns (done': seq<string>)
    requires |done| == Min(pos, |lines|) + offset && pos <= Anchor(h)
    requires h.oldStart == 0 ==> offset == 0
    ensures var current := done + lines[Min(pos, |lines|)..];
      if Matches(norm, Claimed(lines, h), OldSide(h.lines)) then
        && |Claimed(lines, h)| == |OldSide(h.lines)|
        && done' == done + Clamped(lines, pos, Anchor(h)) + Fill(h.lines, Claimed(lines, h))
        && |done'| == Min(End(h), |lines|) + offset + Delta(h)
        && SpliceOne(norm, current, h, offset) == Some(done' + lines[Min(End(h), |lines|)..])
      else
        SpliceOne(norm, current, h, offset) == None
  {
    hide Matches, Fill, OldSide, NewSide, Clamped;
    ClampedShift(lines, done, pos, offset, Anchor(h), End(h));
    ClampedLength(lines, pos, Anchor(h));
    ClampedLength(lines, Anchor(h), End(h));
    MatchesLength(norm, Claimed(lines, h), OldSide(h.lines));
    assert Start(h, offset) == Anchor(h) + offset;
    done' := done;
    if Matches(norm, Claimed(lines, h), OldSide(h.lines)) {
      done' := done + Clamped(lines, pos, Anchor(h)) + Fill(h.lines, Claimed(lines, h));
    }
  }

  lemma Regroup<T>(a: seq<T>, b: seq<T>, c: seq<T>, d: seq<T>)
    ensures a + b + c + d == a + (b + c + d)
  {
  }

  /** The loop in mid-run: `done` stands for `lines[..pos]`, the rest is still original. */
  lemma {:induction false} SpliceRefines(norm: Normalizer, lines: seq<string>, done: seq<string>,
                                         hunks: seq<Hunk>, pos: nat, offset: int)
    requires AscendingFrom(hunks, pos)
    requires |done| == Min(pos, |lines|) + offset
    requires |hunks| > 0 && hunks[0].oldStart == 0 ==> offset == 0
    ensures AllMatch(norm, lines, hunks) ==> AllFit(lines, hunks)
    ensures SpliceAll(norm, done + lines[Min(pos, |lines|)..], hunks, offset)
         == if AllMatch(norm, lines, hunks) then Some(done + ReplaceAll(lines, hunks, pos)) else None
    decreases |hunks|
  {
    hide SpliceOne, Matches, Fill, OldSide, NewSide, Clamped;
    if |hunks| > 0 {
      var current := done + lines[Min(pos, |lines|)..];
      var h, rest := hunks[0], hunks[1..];
      var done' := SpliceOneStep(norm, lines, done, h, pos, offset);
      if Matches(norm, Claimed(lines, h), OldSide(h.lines)) {
        SpliceRefines(norm, lines, done', rest, End(h), offset + Delta(h));
        if AllMatch(norm, lines, rest) {
          Regroup(done, Clamped(lines, pos, Anchor(h)), Fill(h.lines, Claimed(lines, h)),
                  ReplaceAll(lines, rest, End(h)));
        }
      }
    }
  }

  /**
   * Splice refinement: for ascending hunks, the loop with its running offset accepts exactly
   * when every old side matches the original lines, and then it is the one-pass replacement.
   */
  lemma SpliceIsSimultaneous(norm: Normalizer, lines: seq<string>, hunks: seq<Hunk>)
    requires Ascending(hunks)
    ensures AllMatch(norm, lines, hunks) ==> AllFit(lines, hunks)
    ensures SpliceAll(norm, lines, hunks, 0)
         == if AllMatch(norm, lines, hunks) then Some(ReplaceAll(lines, hunks, 0)) else None
  {
    SpliceRefines(norm, lines, [], hunks, 0, 0);
    assert [] + lines[Min(0, |lines|)..] == lines;
    if AllMatch(norm, lines, hunks) {
      assert [] + ReplaceAll(lines, hunks, 0) == ReplaceAll(lines, hunks, 0);
    }
  }

  /** A single hunk inside the file. */
  lemma OneHunk(norm: Normalizer, lines: seq<string>, h: Hunk, a: nat, b: nat)
    requires h.oldStart == a + 1 && b == a + |OldSide(h.lines)| && b <= |lines|
    ensures SpliceAll(norm, lines, [h], 0)
         == if Matches(norm, lines[a..b], OldSide(h.lines))
            then Some(lines[..a] + Fill(h.lines, lines[a..b]) + lines[b..]) else None
  {
    hide Matches, Fill, OldSide;
    assert [h][1..] == [];
  }
}
