/** What the one-pass replacement keeps, adds and drops; where it departs from `diff`'s positions. */
module PatchFacts {
  import opened Basics
  import opened Lines
  import opened Patch
  import opened PatchApply

  function TotalDelta(hunks: seq<Hunk>): int {
    if |hunks| == 0 then 0 else Delta(hunks[0]) + TotalDelta(hunks[1..])
  }

  /** The result has grown by the hunks' deltas. */
  lemma {:induction false} ReplacedLength(lines: seq<string>, hunks: seq<Hunk>, pos: nat)
    requires AscendingFrom(hunks, pos) && AllFit(lines, hunks)
    ensures |ReplaceAll(lines, hunks, pos)| == |lines| - Min(pos, |lines|) + TotalDelta(hunks)
  {
    if |hunks| > 0 {
      ReplacedLength(lines, hunks[1..], End(hunks[0]));
    }
  }

  /** The `max(0, ...)` in the loop never changes a start, except for a first hunk at line 0. */
  lemma {:induction false} ClampNeverFires(lines: seq<string>, hunks: seq<Hunk>, pos: nat, offset: int, k: nat)
    requires AscendingFrom(hunks, pos) && AllFit(lines, hunks)
    requires Min(pos, |lines|) + offset >= 0
    requires k < |hunks| && hunks[k].oldStart >= 1
    ensures hunks[k].oldStart - 1 + offset + TotalDelta(hunks[..k]) >= 0
    decreases k
  {
    if k > 0 {
      var h, rest := hunks[0], hunks[1..];
      assert |Claimed(lines, h)| == Min(End(h), |lines|) - Min(Anchor(h), |lines|);
      ClampNeverFires(lines, rest, End(h), offset + Delta(h), k - 1);
      assert hunks[..k][1..] == rest[..k - 1];
      assert rest[k - 1] == hunks[k];
    }
  }

  // ----- Provenance -----

  /** Where a line of the result comes from. */
  datatype Source = Kept(line: nat) | Added(text: string)

  function SegmentSources(lines: seq<HunkLine>, base: nat): seq<Source> {
    if |lines| == 0 then []
    else match lines[0].op
      case Context => [Kept(base)] + SegmentSources(lines[1..], base + 1)
      case Delete => SegmentSources(lines[1..], base + 1)
      case Insert => [Added(lines[0].text)] + SegmentSources(lines[1..], base)
  }

  function KeptRange(a: nat, b: nat): (r: seq<Source>)
    requires a <= b
    ensures |r| == b - a && forall i :: 0 <= i < |r| ==> r[i] == Kept(a + i)
  {
    seq(b - a, i requires 0 <= i => Kept(a + i))
  }

  function Sources(n: nat, hunks: seq<Hunk>, pos: nat): seq<Source>
    requires AscendingFrom(hunks, pos)
  {
    if |hunks| == 0 then KeptRange(Min(pos, n), n)
    else
      KeptRange(Min(pos, n), Min(Anchor(hunks[0]), n))
      + SegmentSources(hunks[0].lines, Min(Anchor(hunks[0]), n))
      + Sources(n, hunks[1..], End(hunks[0]))
  }

  /** The `k`-th line of the old side is a deleted one. */
  predicate DeletedAt(lines: seq<HunkLine>, k: int) {
    |lines| > 0 &&
    match lines[0].op
    case Insert => DeletedAt(lines[1..], k)
    case Delete => k == 0 || DeletedAt(lines[1..], k - 1)
    case Context => DeletedAt(lines[1..], k - 1)
  }

  /** Some hunk deletes original line `i`. */
  predicate Deleted(hunks: seq<Hunk>, i: int) {
    |hunks| > 0 && (DeletedAt(hunks[0].lines, i - Anchor(hunks[0])) || Deleted(hunks[1..], i))
  }

  function Inserted(lines: seq<HunkLine>): seq<string> {
    if |lines| == 0 then []
    else (if lines[0].op.Insert? then [lines[0].text] else []) + Inserted(lines[1..])
  }

  function AllInserted(hunks: seq<Hunk>): seq<string> {
    if |hunks| == 0 then [] else Inserted(hunks[0].lines) + AllInserted(hunks[1..])
  }

  function AddedTexts(sources: seq<Source>): seq<string> {
    if |sources| == 0 then []
    else (if sources[0].Added? then [sources[0].text] else []) + AddedTexts(sources[1..])
  }

  predicate Increasing(sources: seq<Source>) {
    forall p, q :: 0 <= p < q < |sources| && sources[p].Kept? && sources[q].Kept? ==>
      sources[p].line < sources[q].line
  }

  predicate KeptWithin(sources: seq<Source>, a: int, b: int) {
    forall p :: 0 <= p < |sources| && sources[p].Kept? ==> a <= sources[p].line < b
  }

  predicate Keeps(sources: seq<Source>, i: nat) {
    exists p :: 0 <= p < |sources| && sources[p] == Kept(i)
  }

  lemma KeepsAppend(a: seq<Source>, b: seq<Source>, i: nat)
    ensures Keeps(a + b, i) <==> Keeps(a, i) || Keeps(b, i)
  {
    if p :| 0 <= p < |a| && a[p] == Kept(i) {
      assert (a + b)[p] == Kept(i);
    }
    if p :| 0 <= p < |b| && b[p] == Kept(i) {
      assert (a + b)[|a| + p] == Kept(i);
    }
  }

  lemma KeptRangeKeeps(a: nat, b: nat, i: nat)
    requires a <= b
    ensures Keeps(KeptRange(a, b), i) <==> a <= i < b
    ensures Increasing(KeptRange(a, b)) && KeptWithin(KeptRange(a, b), a, b)
    ensures AddedTexts(KeptRange(a, b)) == []
  {
    KeptAddsNothing(KeptRange(a, b));
    if a <= i < b {
      assert KeptRange(a, b)[i - a] == Kept(i);
    }
  }

  /** `result[p]` is exactly what `sources[p]` names. */
  predicate Resolves(lines: seq<string>, sources: seq<Source>, result: seq<string>) {
    && |result| == |sources|
    && forall p :: 0 <= p < |sources| ==>
         match sources[p]
         case Kept(i) => i < |lines| && result[p] == lines[i]
         case Added(t) => result[p] == t
  }

  lemma {:induction false} AddedTextsAppend(a: seq<Source>, b: seq<Source>)
    ensures AddedTexts(a + b) == AddedTexts(a) + AddedTexts(b)
  {
    if |a| == 0 {
      assert a + b == b;
    } else {
      assert (a + b)[1..] == a[1..] + b;
      AddedTextsAppend(a[1..], b);
    }
  }

  lemma {:induction false} KeptAddsNothing(sources: seq<Source>)
    requires forall p :: 0 <= p < |sources| ==> sources[p].Kept?
    ensures AddedTexts(sources) == []
  {
    if |sources| > 0 {
      KeptAddsNothing(sources[1..]);
    }
  }

  lemma {:induction false} DeletedAtRange(lines: seq<HunkLine>, k: int)
    requires DeletedAt(lines, k)
    ensures 0 <= k < |OldSide(lines)|
  {
    match lines[0].op {
      case Insert => DeletedAtRange(lines[1..], k);
      case Delete => if k != 0 { DeletedAtRange(lines[1..], k - 1); }
      case Context => DeletedAtRange(lines[1..], k - 1);
    }
  }

  lemma {:induction false} DeletedRange(hunks: seq<Hunk>, pos: nat, i: int)
    requires AscendingFrom(hunks, pos) && Deleted(hunks, i)
    ensures pos <= i
  {
    if DeletedAt(hunks[0].lines, i - Anchor(hunks[0])) {
      DeletedAtRange(hunks[0].lines, i - Anchor(hunks[0]));
    } else {
      DeletedRange(hunks[1..], End(hunks[0]), i);
    }
  }

  lemma {:induction false} SegmentOrdered(hl: seq<HunkLine>, base: nat)
    ensures Increasing(SegmentSources(hl, base)) && KeptWithin(SegmentSources(hl, base), base, base + |OldSide(hl)|)
    ensures AddedTexts(SegmentSources(hl, base)) == Inserted(hl)
  {
    if |hl| > 0 {
      var next := if hl[0].op.Insert? then base else base + 1;
      var head := SegmentHead(hl[0], base);
      var tail := SegmentSources(hl[1..], next);
      SegmentOrdered(hl[1..], next);
      assert SegmentSources(hl, base) == head + tail;
      IncreasingAppend(head, tail, base, next, base + |OldSide(hl)|);
      AddedTextsAppend(head, tail);
    }
  }

  function SegmentHead(line: HunkLine, base: nat): seq<Source> {
    match line.op
    case Insert => [Added(line.text)]
    case Delete => []
    case Context => [Kept(base)]
  }

  lemma {:induction false} SegmentKeeps(hl: seq<HunkLine>, base: nat, i: nat)
    requires base <= i < base + |OldSide(hl)|
    ensures Keeps(SegmentSources(hl, base), i) <==> !DeletedAt(hl, i - base)
  {
    var next := if hl[0].op.Insert? then base else base + 1;
    var head := SegmentHead(hl[0], base);
    var tail := SegmentSources(hl[1..], next);
    assert SegmentSources(hl, base) == head + tail;
    KeepsAppend(head, tail, i);
    assert Keeps(head, i) <==> hl[0].op.Context? && i == base by {
      if hl[0].op.Context? { assert head[0] == Kept(base); }
    }
    if next <= i {
      SegmentKeeps(hl[1..], next, i);
    } else {
      SegmentOrdered(hl[1..], next);
      if DeletedAt(hl[1..], -1) { DeletedAtRange(hl[1..], -1); }
    }
  }

  lemma {:induction false} SegmentResolves(lines: seq<string>, hl: seq<HunkLine>, base: nat)
    requires base + |OldSide(hl)| <= |lines|
    ensures Resolves(lines, SegmentSources(hl, base), Fill(hl, lines[base..base + |OldSide(hl)|]))
  {
    hide Resolves, Fill, SegmentSources, SegmentHead;
    if |hl| > 0 {
      var next := if hl[0].op.Insert? then base else base + 1;
      SegmentResolves(lines, hl[1..], next);
      var actual, actual' := lines[base..base + |OldSide(hl)|], lines[next..next + |OldSide(hl[1..])|];
      assert actual[next - base..] == actual';
      var text := if hl[0].op.Insert? then [hl[0].text] else if hl[0].op.Delete? then [] else [lines[base]];
      HeadResolves(lines, hl[0], base, text);
      ResolvesAppend(lines, SegmentHead(hl[0], base), text, SegmentSources(hl[1..], next), Fill(hl[1..], actual'));
      SegmentStep(hl, base);
      FillStep(hl, actual, []);
      assert [] + Fill(hl, actual) == Fill(hl, actual) && [] + text == text;
      assert [] + Fill(hl[1..], actual') == Fill(hl[1..], actual');
    } else {
      NothingResolves(lines, hl, base);
    }
  }

  lemma SegmentStep(hl: seq<HunkLine>, base: nat)
    requires |hl| > 0
    ensures SegmentSources(hl, base)
         == SegmentHead(hl[0], base) + SegmentSources(hl[1..], if hl[0].op.Insert? then base else base + 1)
  {
  }

  lemma NothingResolves(lines: seq<string>, hl: seq<HunkLine>, base: nat)
    requires |hl| == 0 && base <= |lines|
    ensures Resolves(lines, SegmentSources(hl, base), Fill(hl, lines[base..base]))
  {
  }

  lemma HeadResolves(lines: seq<string>, line: HunkLine, base: nat, text: seq<string>)
    requires line.op.Context? ==> base < |lines|
    requires text == (if line.op.Insert? then [line.text] else if line.op.Delete? then [] else [lines[base]])
    ensures Resolves(lines, SegmentHead(line, base), text)
  {
  }

  lemma IncreasingAppend(a: seq<Source>, b: seq<Source>, lo: int, mid: int, hi: int)
    requires Increasing(a) && Increasing(b) && KeptWithin(a, lo, mid) && KeptWithin(b, mid, hi) && lo <= mid <= hi
    ensures Increasing(a + b) && KeptWithin(a + b, lo, hi)
  {
  }

  lemma ResolvesAppend(lines: seq<string>, s1: seq<Source>, r1: seq<string>, s2: seq<Source>, r2: seq<string>)
    requires Resolves(lines, s1, r1) && Resolves(lines, s2, r2)
    ensures Resolves(lines, s1 + s2, r1 + r2)
  {
  }

  lemma {:induction false} ReplaceAllResolves(lines: seq<string>, hunks: seq<Hunk>, pos: nat)
    requires AscendingFrom(hunks, pos) && AllFit(lines, hunks)
    ensures Resolves(lines, Sources(|lines|, hunks, pos), ReplaceAll(lines, hunks, pos))
    decreases |hunks|
  {
    if |hunks| == 0 {
      LeadResolves(lines, pos, Max(pos, |lines|));
    } else {
      hide Fill, OldSide, SegmentSources, KeptRange, Resolves;
      var n, h, rest := |lines|, hunks[0], hunks[1..];
      var lead := KeptRange(Min(pos, n), Min(Anchor(h), n));
      var segment := SegmentSources(h.lines, Min(Anchor(h), n));
      ReplaceAllResolves(lines, rest, End(h));
      assert Min(End(h), n) == Min(Anchor(h), n) + |OldSide(h.lines)|;
      SegmentResolves(lines, h.lines, Min(Anchor(h), n));
      LeadResolves(lines, pos, Anchor(h));
      ResolvesAppend(lines, lead, Clamped(lines, pos, Anchor(h)), segment, Fill(h.lines, Claimed(lines, h)));
      ResolvesAppend(lines, lead + segment, Clamped(lines, pos, Anchor(h)) + Fill(h.lines, Claimed(lines, h)),
                     Sources(n, rest, End(h)), ReplaceAll(lines, rest, End(h)));
    }
  }

  lemma {:induction false} SourcesOrdered(lines: seq<string>, hunks: seq<Hunk>, pos: nat)
    requires AscendingFrom(hunks, pos) && AllFit(lines, hunks)
    ensures var sources := Sources(|lines|, hunks, pos);
      && Increasing(sources) && KeptWithin(sources, Min(pos, |lines|), |lines|)
      && AddedTexts(sources) == AllInserted(hunks)
    decreases |hunks|
  {
    hide OldSide, SegmentSources, KeptRange, Increasing, KeptWithin, Inserted, AddedTexts;
    var n := |lines|;
    if |hunks| == 0 {
      KeptRangeKeeps(Min(pos, n), n, 0);
    } else {
      var h, rest := hunks[0], hunks[1..];
      var lead := KeptRange(Min(pos, n), Min(Anchor(h), n));
      var segment := SegmentSources(h.lines, Min(Anchor(h), n));
      var tail := Sources(n, rest, End(h));
      assert Min(End(h), n) == Min(Anchor(h), n) + |OldSide(h.lines)|;
      SourcesOrdered(lines, rest, End(h));
      SegmentOrdered(h.lines, Min(Anchor(h), n));
      KeptRangeKeeps(Min(pos, n), Min(Anchor(h), n), 0);
      IncreasingAppend(lead, segment, Min(pos, n), Min(Anchor(h), n), Min(End(h), n));
      IncreasingAppend(lead + segment, tail, Min(pos, n), Min(End(h), n), n);
      AddedTextsAppend(lead, segment);
      AddedTextsAppend(lead + segment, tail);
    }
  }

  lemma {:induction false} SourcesKeep(lines: seq<string>, hunks: seq<Hunk>, pos: nat, i: nat)
    requires AscendingFrom(hunks, pos) && AllFit(lines, hunks) && pos <= i < |lines|
    ensures Keeps(Sources(|lines|, hunks, pos), i) <==> !Deleted(hunks, i)
    decreases |hunks|
  {
    if |hunks| == 0 {
      KeptRangeKeeps(Min(pos, |lines|), |lines|, i);
    } else {
      var h, rest := hunks[0], hunks[1..];
      SourcesOrdered(lines, rest, End(h));
      if End(h) <= i {
        SourcesKeep(lines, rest, End(h), i);
      }
      SourceOfLine(lines, h, rest, pos, i);
    }
  }

  /**
   * Nothing lost, nothing invented: every line of the result is an original line or an inserted
   * text; the surviving originals are all those no hunk deletes, in their order; the inserted
   * texts are all those of the hunks, in their order.
   */
  lemma ReplaceAllProvenance(lines: seq<string>, hunks: seq<Hunk>)
    requires Ascending(hunks) && AllFit(lines, hunks)
    ensures var sources := Sources(|lines|, hunks, 0);
      && Resolves(lines, sources, ReplaceAll(lines, hunks, 0))
      && Increasing(sources)
      && AddedTexts(sources) == AllInserted(hunks)
      && forall i: nat :: i < |lines| ==> (Keeps(sources, i) <==> !Deleted(hunks, i))
  {
    ReplaceAllResolves(lines, hunks, 0);
    SourcesOrdered(lines, hunks, 0);
    forall i: nat | i < |lines| ensures Keeps(Sources(|lines|, hunks, 0), i) <==> !Deleted(hunks, i) {
      SourcesKeep(lines, hunks, 0, i);
    }
  }

  lemma LeadResolves(lines: seq<string>, a: nat, b: nat)
    requires a <= b
    ensures Resolves(lines, KeptRange(Min(a, |lines|), Min(b, |lines|)), Clamped(lines, a, b))
  {
  }

  /** Membership of one original line, case by case over the three parts. */
  lemma SourceOfLine(lines: seq<string>, h: Hunk, rest: seq<Hunk>, pos: nat, i: nat)
    requires pos <= Anchor(h) && AscendingFrom(rest, End(h)) && |Claimed(lines, h)| == |OldSide(h.lines)|
    requires pos <= i < |lines|
    requires KeptWithin(Sources(|lines|, rest, End(h)), Min(End(h), |lines|), |lines|)
    requires End(h) <= i ==> (Keeps(Sources(|lines|, rest, End(h)), i) <==> !Deleted(rest, i))
    ensures Keeps(KeptRange(Min(pos, |lines|), Min(Anchor(h), |lines|))
                  + SegmentSources(h.lines, Min(Anchor(h), |lines|)) + Sources(|lines|, rest, End(h)), i)
       <==> !(DeletedAt(h.lines, i - Anchor(h)) || Deleted(rest, i))
  {
    hide SegmentSources, KeptRange, Sources, DeletedAt, Deleted, AscendingFrom, OldSide;
    var n := |lines|;
    var lead := KeptRange(Min(pos, n), Min(Anchor(h), n));
    var segment := SegmentSources(h.lines, Min(Anchor(h), n));
    var tail := Sources(n, rest, End(h));
    KeepsAppend(lead, segment, i);
    KeepsAppend(lead + segment, tail, i);
    KeptRangeKeeps(Min(pos, n), Min(Anchor(h), n), i);
    SegmentOrdered(h.lines, Min(Anchor(h), n));
    if Anchor(h) <= i < End(h) {
      SegmentKeeps(h.lines, Min(Anchor(h), n), i);
    }
    if DeletedAt(h.lines, i - Anchor(h)) {
      DeletedAtRange(h.lines, i - Anchor(h));
    }
    if Deleted(rest, i) {
      DeletedRange(rest, End(h), i);
    }
  }

  // ----- Positions against the diff format -----

  /** An empty old range at `oldStart` = s means "after line s" to diff(1); the code inserts before it. */
  lemma PureInsertionIsEarly(norm: Normalizer, lines: seq<string>, h: Hunk)
    requires OldSide(h.lines) == [] && 1 <= h.oldStart <= |lines|
    ensures var s, texts := h.oldStart, NewSide(h.lines);
      && SpliceAll(norm, lines, [h], 0) == Some(lines[..s - 1] + texts + lines[s - 1..])
      && (SpliceAll(norm, lines, [h], 0) == Some(lines[..s] + texts + lines[s..])
          <==> forall t :: t in texts ==> t == lines[s - 1])
  {
    var s, texts := h.oldStart, NewSide(h.lines);
    FillOfNothing(h.lines);
    assert Clamped(lines, s - 1, s - 1) == [];
    assert SpliceAll(norm, lines, [h], 0) == SpliceOne(norm, lines, h, 0);
    ShiftedInsertion(texts, lines, s);
  }

  /** Inserting before or after a line gives the same list exactly when only copies of it are inserted. */
  lemma ShiftedInsertion(texts: seq<string>, lines: seq<string>, s: nat)
    requires 1 <= s <= |lines|
    ensures lines[..s - 1] + texts + lines[s - 1..] == lines[..s] + texts + lines[s..]
       <==> forall t :: t in texts ==> t == lines[s - 1]
  {
    var early, late := lines[..s - 1] + texts + lines[s - 1..], lines[..s] + texts + lines[s..];
    if early == late {
      forall k | 0 <= k < |texts| ensures texts[k] == lines[s - 1] {
        AllEqualFromShift(texts, lines, early, late, s, k);
      }
    } else if forall t :: t in texts ==> t == lines[s - 1] {
      forall p | 0 <= p < |early| ensures early[p] == late[p] {
        if s - 1 <= p < s - 1 + |texts| {
          assert early[p] == texts[p - (s - 1)] && texts[p - (s - 1)] in texts;
        }
        if s <= p < s + |texts| {
          assert late[p] == texts[p - s] && texts[p - s] in texts;
        }
      }
    }
  }

  lemma {:induction false} FillOfNothing(lines: seq<HunkLine>)
    requires OldSide(lines) == []
    ensures Fill(lines, []) == NewSide(lines)
  {
    if |lines| > 0 {
      FillOfNothing(lines[1..]);
    }
  }

  lemma {:induction false} AllEqualFromShift(texts: seq<string>, lines: seq<string>,
                                             early: seq<string>, late: seq<string>, s: nat, k: nat)
    requires 1 <= s <= |lines| && k < |texts|
    requires early == lines[..s - 1] + texts + lines[s - 1..] && late == lines[..s] + texts + lines[s..]
    requires early == late
    ensures texts[k] == lines[s - 1]
  {
    assert early[s - 1 + k] == texts[k];
    if k == 0 {
      assert late[s - 1] == lines[s - 1];
    } else {
      AllEqualFromShift(texts, lines, early, late, s, k - 1);
      assert late[s - 1 + k] == texts[k - 1];
    }
  }
}
