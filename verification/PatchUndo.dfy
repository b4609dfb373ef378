/** Reversing a patch: the reversed hunks are accepted on the result and restore the file. */
module PatchUndo {
  import opened Basics
  import opened Lines
  import opened Patch
  import opened PatchApply
  import opened PatchFacts
  import opened PatchPrint

  function ReverseLines(lines: seq<HunkLine>): seq<HunkLine> {
    if |lines| == 0 then []
    else
      var op := match lines[0].op
        case Context => Context
        case Delete => Insert
        case Insert => Delete;
      [HunkLine(op, lines[0].text)] + ReverseLines(lines[1..])
  }

  /** Each hunk with '+' and '-' swapped, starting at the running start index plus one, its header saying so. */
  function Reverse(hunks: seq<Hunk>, n: nat, offset: int): seq<Hunk>
    requires RunsForward(hunks, n, offset)
  {
    if |hunks| == 0 then []
    else
      [Back(hunks[0], n, offset)] + Reverse(hunks[1..], n, offset + Delta(hunks[0]))
  }

  function BackStyle(h: Hunk): Style {
    Style(false, false, Anchor(h) + 1, "")
  }

  function Back(h: Hunk, n: nat, offset: int): Hunk
    requires Min(Anchor(h), n) + offset >= 0
  {
    var start := Min(Anchor(h), n) + offset + 1;
    Hunk(HeaderText(start, h.newCount, h.oldCount, BackStyle(h)), start, h.newCount, h.oldCount, ReverseLines(h.lines))
  }

  /** All running start indices are natural numbers. */
  predicate RunsForward(hunks: seq<Hunk>, n: nat, offset: int) {
    |hunks| == 0 ||
    (Min(Anchor(hunks[0]), n) + offset >= 0 && RunsForward(hunks[1..], n, offset + Delta(hunks[0])))
  }

  /** The original lines, with each deleted line spelled as the hunk spells it. */
  function Respell(lines: seq<HunkLine>, actual: seq<string>): (r: seq<string>)
    requires |actual| == |OldSide(lines)|
    ensures |r| == |actual|
  {
    if |lines| == 0 then []
    else match lines[0].op
      case Context => [actual[0]] + Respell(lines[1..], actual[1..])
      case Delete => [lines[0].text] + Respell(lines[1..], actual[1..])
      case Insert => Respell(lines[1..], actual)
  }

  function RespellAll(lines: seq<string>, hunks: seq<Hunk>, pos: nat): seq<string>
    requires AscendingFrom(hunks, pos) && AllFit(lines, hunks)
  {
    if |hunks| == 0 then lines[Min(pos, |lines|)..]
    else
      Clamped(lines, pos, Anchor(hunks[0]))
      + Respell(hunks[0].lines, Claimed(lines, hunks[0]))
      + RespellAll(lines, hunks[1..], End(hunks[0]))
  }

  /** Every deleted line is spelled in the hunk exactly as in the file. */
  predicate ExactDeletes(lines: seq<HunkLine>, actual: seq<string>)
    requires |actual| == |OldSide(lines)|
  {
    |lines| == 0 ||
    match lines[0].op
    case Context => ExactDeletes(lines[1..], actual[1..])
    case Delete => lines[0].text == actual[0] && ExactDeletes(lines[1..], actual[1..])
    case Insert => ExactDeletes(lines[1..], actual)
  }

  predicate AllExactDeletes(lines: seq<string>, hunks: seq<Hunk>)
    requires AllFit(lines, hunks)
  {
    |hunks| == 0 ||
    (ExactDeletes(hunks[0].lines, Claimed(lines, hunks[0])) && AllExactDeletes(lines, hunks[1..]))
  }

  lemma {:induction false} ReverseSides(lines: seq<HunkLine>)
    ensures OldSide(ReverseLines(lines)) == NewSide(lines)
    ensures NewSide(ReverseLines(lines)) == OldSide(lines)
  {
    if |lines| > 0 {
      ReverseSides(lines[1..]);
    }
  }

  /** One hunk undone: its reverse matches what it left, and turns it into the respelled original. */
  lemma {:induction false} ReverseOne(norm: Normalizer, lines: seq<HunkLine>, actual: seq<string>)
    requires Matches(norm, actual, OldSide(lines))
    ensures OldSide(ReverseLines(lines)) == NewSide(lines)
    ensures Matches(norm, Fill(lines, actual), NewSide(lines))
    ensures Fill(ReverseLines(lines), Fill(lines, actual)) == Respell(lines, actual)
  {
    ReverseSides(lines);
    if |lines| > 0 {
      var rest := lines[1..];
      var actual' := if lines[0].op.Insert? then actual else actual[1..];
      assert lines[0].op.Insert? || OldSide(lines)[1..] == OldSide(rest);
      assert Matches(norm, actual', OldSide(rest)) by {
        if !lines[0].op.Insert? {
          forall i | 0 <= i < |actual'| ensures norm(actual'[i]) == norm(OldSide(rest)[i]) {
            assert norm(actual[i + 1]) == norm(OldSide(lines)[i + 1]);
          }
        }
      }
      ReverseSides(rest);
      ReverseOne(norm, rest, actual');
      ReverseOneStep(norm, lines, actual, actual');
    }
  }

  lemma ReverseOneStep(norm: Normalizer, lines: seq<HunkLine>, actual: seq<string>, actual': seq<string>)
    requires |lines| > 0 && Matches(norm, actual, OldSide(lines))
    requires actual' == (if lines[0].op.Insert? then actual else actual[1..])
    requires |actual'| == |OldSide(lines[1..])|
    requires OldSide(ReverseLines(lines[1..])) == NewSide(lines[1..])
    requires OldSide(ReverseLines(lines)) == NewSide(lines)
    requires Matches(norm, Fill(lines[1..], actual'), NewSide(lines[1..]))
    requires Fill(ReverseLines(lines[1..]), Fill(lines[1..], actual')) == Respell(lines[1..], actual')
    ensures Matches(norm, Fill(lines, actual), NewSide(lines))
    ensures Fill(ReverseLines(lines), Fill(lines, actual)) == Respell(lines, actual)
  {
    var rest := lines[1..];
    var result := Fill(lines, actual);
    assert ReverseLines(lines)[1..] == ReverseLines(rest);
    if lines[0].op.Delete? {
      assert result == Fill(rest, actual');
    } else {
      assert result[1..] == Fill(rest, actual');
      assert NewSide(lines)[1..] == NewSide(rest);
      assert norm(result[0]) == norm(NewSide(lines)[0]) by {
        if lines[0].op.Context? {
          assert norm(actual[0]) == norm(OldSide(lines)[0]);
        }
      }
    }
  }

  /** `result` holds from index `at` on what the hunks made of `lines[pos..]`. */
  lemma {:induction false} ReverseAll(norm: Normalizer, lines: seq<string>, hunks: seq<Hunk>, pos: nat,
                                      offset: int, result: seq<string>)
    requires AscendingFrom(hunks, pos) && AllFit(lines, hunks) && AllMatch(norm, lines, hunks)
    requires 0 <= Min(pos, |lines|) + offset <= |result|
    requires result[Min(pos, |lines|) + offset..] == ReplaceAll(lines, hunks, pos)
    ensures RunsForward(hunks, |lines|, offset)
    ensures var reversed := Reverse(hunks, |lines|, offset);
      && AscendingFrom(reversed, Min(pos, |lines|) + offset)
      && (|reversed| > 0 ==> reversed[0].oldStart >= 1)
      && AllMatch(norm, result, reversed) && AllFit(result, reversed)
      && ReplaceAll(result, reversed, Min(pos, |lines|) + offset) == RespellAll(lines, hunks, pos)
    decreases |hunks|
  {
    hide Fill, Respell, Matches, OldSide, NewSide, Clamped, Claimed, Anchor, End, Delta, Back, Min;
    if |hunks| == 0 {
      NothingToReverse(lines, pos, offset, result);
    } else {
      var h, rest := hunks[0], hunks[1..];
      ReverseHunk(norm, lines, h, pos, offset, result, ReplaceAll(lines, rest, End(h)));
      ReverseAll(norm, lines, rest, End(h), offset + Delta(h), result);
    }
  }

  lemma NothingToReverse(lines: seq<string>, pos: nat, offset: int, result: seq<string>)
    requires 0 <= Min(pos, |lines|) + offset <= |result|
    requires result[Min(pos, |lines|) + offset..] == lines[Min(pos, |lines|)..]
    ensures ReplaceAll(result, [], Min(pos, |lines|) + offset) == RespellAll(lines, [], pos)
  {
  }

  /** Where the reverse of one hunk lies in the result, what it claims there, and what it puts back. */
  lemma ReverseHunk(norm: Normalizer, lines: seq<string>, h: Hunk, pos: nat, offset: int, result: seq<string>,
                    tail: seq<string>)
    requires pos <= Anchor(h) && |Claimed(lines, h)| == |OldSide(h.lines)|
    requires Matches(norm, Claimed(lines, h), OldSide(h.lines))
    requires 0 <= Min(pos, |lines|) + offset <= |result|
    requires result[Min(pos, |lines|) + offset..]
          == Clamped(lines, pos, Anchor(h)) + Fill(h.lines, Claimed(lines, h)) + tail
    ensures Min(Anchor(h), |lines|) + offset >= 0
    ensures var at, back, next := Min(pos, |lines|) + offset, Back(h, |lines|, offset),
                                  Min(End(h), |lines|) + offset + Delta(h);
      && at <= Anchor(back) && back.oldStart >= 1 && End(back) == next <= |result| && result[next..] == tail
      && Clamped(result, at, Anchor(back)) == Clamped(lines, pos, Anchor(h))
      && Matches(norm, Claimed(result, back), OldSide(back.lines))
      && |Claimed(result, back)| == |OldSide(back.lines)|
      && Fill(back.lines, Claimed(result, back)) == Respell(h.lines, Claimed(lines, h))
  {
    hide Fill, Respell, Matches, OldSide, NewSide, ReverseLines;
    var n := |lines|;
    var at := Min(pos, n) + offset;
    var lead, filled := Clamped(lines, pos, Anchor(h)), Fill(h.lines, Claimed(lines, h));
    ReverseOne(norm, h.lines, Claimed(lines, h));
    ReverseSides(h.lines);
    assert |lead| == Min(Anchor(h), n) - Min(pos, n);
    assert Min(End(h), n) == Min(Anchor(h), n) + |OldSide(h.lines)|;
    SplitThree(result, at, lead, filled, tail);
    assert Claimed(result, Back(h, n, offset)) == filled;
  }

  lemma SplitThree<T>(s: seq<T>, at: nat, a: seq<T>, b: seq<T>, c: seq<T>)
    requires at <= |s| && s[at..] == a + b + c
    ensures at + |a| + |b| <= |s|
    ensures s[at..at + |a|] == a
    ensures s[at + |a|..at + |a| + |b|] == b
    ensures s[at + |a| + |b|..] == c
  {
    assert s[at..][..|a|] == a;
    assert s[at..][|a|..|a| + |b|] == b;
    assert s[at..][|a| + |b|..] == c;
  }

  /**
   * Undo: the reversed hunks are accepted on the output of an accepted patch, and leave the
   * original lines with each deleted one respelled as its hunk spells it.
   */
  lemma Undo(norm: Normalizer, lines: seq<string>, hunks: seq<Hunk>)
    requires Ascending(hunks) && AllMatch(norm, lines, hunks)
    ensures AllFit(lines, hunks) && RunsForward(hunks, |lines|, 0)
    ensures SpliceAll(norm, ReplaceAll(lines, hunks, 0), Reverse(hunks, |lines|, 0), 0)
         == Some(RespellAll(lines, hunks, 0))
  {
    MatchingFits(norm, lines, hunks);
    var result := ReplaceAll(lines, hunks, 0);
    assert result[0..] == result;
    ReverseAll(norm, lines, hunks, 0, 0, result);
    SpliceIsSimultaneous(norm, result, Reverse(hunks, |lines|, 0));
  }

  lemma {:induction false} RespellOne(norm: Normalizer, lines: seq<HunkLine>, actual: seq<string>)
    requires Matches(norm, actual, OldSide(lines))
    ensures forall i :: 0 <= i < |actual| ==> norm(Respell(lines, actual)[i]) == norm(actual[i])
    ensures Respell(lines, actual) == actual <==> ExactDeletes(lines, actual)
  {
    if |lines| > 0 {
      var insert := lines[0].op.Insert?;
      var actual' := if insert then actual else actual[1..];
      assert insert || OldSide(lines)[1..] == OldSide(lines[1..]);
      assert insert || (OldSide(lines)[0] == lines[0].text && actual == [actual[0]] + actual');
      forall i | 0 <= i < |actual'| && !insert ensures norm(actual'[i]) == norm(OldSide(lines[1..])[i]) {
        assert norm(actual[i + 1]) == norm(OldSide(lines)[i + 1]);
      }
      RespellOne(norm, lines[1..], actual');
      assert insert || Respell(lines, actual)[1..] == Respell(lines[1..], actual');
    }
  }

  lemma {:induction false} RespellAllFacts(norm: Normalizer, lines: seq<string>, hunks: seq<Hunk>, pos: nat)
    requires AscendingFrom(hunks, pos) && AllFit(lines, hunks) && AllMatch(norm, lines, hunks)
    ensures var respelled, rest := RespellAll(lines, hunks, pos), lines[Min(pos, |lines|)..];
      && |respelled| == |rest|
      && (forall i :: 0 <= i < |rest| ==> norm(respelled[i]) == norm(rest[i]))
      && (respelled == rest <==> AllExactDeletes(lines, hunks))
    decreases |hunks|
  {
    hide Fill, Respell, Matches, OldSide, NewSide, ExactDeletes, Delta;
    if |hunks| > 0 {
      var n, h, rest := |lines|, hunks[0], hunks[1..];
      var lead, claimed := Clamped(lines, pos, Anchor(h)), Claimed(lines, h);
      RespellOne(norm, h.lines, claimed);
      RespellAllFacts(norm, lines, rest, End(h));
      var tail := lines[Min(End(h), n)..];
      assert lines[Min(pos, n)..] == lead + claimed + tail;
      ReplacedParts(norm, lead, claimed, Respell(h.lines, claimed), tail, RespellAll(lines, rest, End(h)));
    }
  }

  lemma ReplacedParts(norm: Normalizer, a: seq<string>, b: seq<string>, b': seq<string>,
                      c: seq<string>, c': seq<string>)
    requires |b| == |b'| && |c| == |c'|
    requires forall i :: 0 <= i < |b| ==> norm(b'[i]) == norm(b[i])
    requires forall i :: 0 <= i < |c| ==> norm(c'[i]) == norm(c[i])
    ensures forall i :: 0 <= i < |a + b + c| ==> norm((a + b' + c')[i]) == norm((a + b + c)[i])
    ensures a + b' + c' == a + b + c <==> b' == b && c' == c
  {
    var x, y := a + b' + c', a + b + c;
    if x == y {
      assert b' == x[|a|..|a| + |b|] == y[|a|..|a| + |b|] == b;
      assert c' == x[|a| + |b|..] == y[|a| + |b|..] == c;
    }
  }

  lemma {:induction false} RespellKeeps(lines: seq<HunkLine>, actual: seq<string>, k: nat)
    requires |actual| == |OldSide(lines)| && k < |actual| && !DeletedAt(lines, k)
    ensures Respell(lines, actual)[k] == actual[k]
  {
    match lines[0].op {
      case Insert => RespellKeeps(lines[1..], actual, k);
      case Delete => RespellKeeps(lines[1..], actual[1..], k - 1);
      case Context => if k > 0 { RespellKeeps(lines[1..], actual[1..], k - 1); }
    }
  }

  lemma {:induction false} RespellAllKeeps(lines: seq<string>, hunks: seq<Hunk>, pos: nat, i: nat)
    requires AscendingFrom(hunks, pos) && AllFit(lines, hunks)
    requires pos <= i < |lines| && !Deleted(hunks, i)
    ensures var respelled := RespellAll(lines, hunks, pos);
      i - pos < |respelled| && respelled[i - pos] == lines[i]
    decreases |hunks|
  {
    hide Respell, OldSide, DeletedAt;
    if |hunks| > 0 {
      var h, rest := hunks[0], hunks[1..];
      var claimed := Claimed(lines, h);
      var lead, middle := Clamped(lines, pos, Anchor(h)), Respell(h.lines, claimed);
      assert RespellAll(lines, hunks, pos) == lead + middle + RespellAll(lines, rest, End(h));
      assert |claimed| == Min(End(h), |lines|) - Min(Anchor(h), |lines|);
      if i < Anchor(h) {
        assert lead[i - pos] == lines[i];
      } else if i < End(h) {
        RespellKeeps(h.lines, claimed, i - Anchor(h));
        assert |lead| == Anchor(h) - pos && middle[i - Anchor(h)] == claimed[i - Anchor(h)] == lines[i];
      } else {
        RespellAllKeeps(lines, rest, End(h), i);
        assert |lead + middle| == End(h) - pos;
      }
    }
  }

  /** Undo restores the file up to the normaliser, and exactly when deletions were spelled exactly. */
  lemma UndoRestores(norm: Normalizer, lines: seq<string>, hunks: seq<Hunk>)
    requires Ascending(hunks) && AllMatch(norm, lines, hunks)
    ensures AllFit(lines, hunks) && RunsForward(hunks, |lines|, 0)
    ensures var restored := SpliceAll(norm, ReplaceAll(lines, hunks, 0), Reverse(hunks, |lines|, 0), 0);
      && restored.Some? && |restored.value| == |lines|
      && (forall i :: 0 <= i < |lines| ==> norm(restored.value[i]) == norm(lines[i]))
      && (forall i :: 0 <= i < |lines| && !Deleted(hunks, i) ==> restored.value[i] == lines[i])
      && (restored.value == lines <==> AllExactDeletes(lines, hunks))
  {
    hide Fill, Respell, Matches, OldSide, NewSide, ExactDeletes, RespellAll, ReplaceAll, SpliceAll, Reverse,
      AllExactDeletes, Deleted, AllMatch;
    Undo(norm, lines, hunks);
    RespellAllFacts(norm, lines, hunks, 0);
    assert lines[Min(0, |lines|)..] == lines;
    forall i | 0 <= i < |lines| && !Deleted(hunks, i) ensures RespellAll(lines, hunks, 0)[i] == lines[i] {
      RespellAllKeeps(lines, hunks, 0, i);
    }
  }
}
