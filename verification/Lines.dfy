/** Python's `str.splitlines(keepends=True)`, and when splitting undoes joining. */
module Lines {
  import opened Basics

  /** The characters at which `str.splitlines` ends a line. */
  predicate IsBreak(c: char) {
    || '\n' <= c <= '\r'
    || '\U{1C}' <= c <= '\U{1E}'
    || c == '\U{85}' || c == '\U{2028}' || c == '\U{2029}'
  }

  /** Length of the first line of `s`, its terminator included; "\r\n" is one terminator. */
  function FirstLine(s: string): (n: nat)
    requires s != ""
    ensures 0 < n <= |s|
  {
    if IsBreak(s[0]) then
      if s[0] == '\r' && |s| > 1 && s[1] == '\n' then 2 else 1
    else if |s| == 1 then 1
    else 1 + FirstLine(s[1..])
  }

  function SplitLines(s: string): seq<string> {
    if s == "" then []
    else
      var n := FirstLine(s);
      [s[..n]] + SplitLines(s[n..])
  }

  function Concat(lines: seq<string>): string {
    if |lines| == 0 then "" else lines[0] + Concat(lines[1..])
  }

  /** `l` is a single line: nothing but its end can be a terminator. */
  predicate IsLine(l: string) {
    l != "" && FirstLine(l) == |l|
  }

  predicate Terminated(l: string) {
    l != "" && IsBreak(l[|l| - 1])
  }

  /** Written one after the other, `a` and `b` stay two lines. */
  predicate Separable(a: string, b: string)
    requires a != "" && b != ""
  {
    Terminated(a) && !(a[|a| - 1] == '\r' && b[0] == '\n')
  }

  predicate WellSplit(lines: seq<string>) {
    && (forall i :: 0 <= i < |lines| ==> IsLine(lines[i]))
    && (forall i :: 0 <= i < |lines| - 1 ==> Separable(lines[i], lines[i + 1]))
  }

  /** What `FirstLine` finds does not depend on what follows a finished line. */
  lemma {:induction false} FirstLineOfConcat(l: string, rest: string)
    requires IsLine(l)
    requires rest == "" || Separable(l, rest)
    ensures FirstLine(l + rest) == |l|
  {
    if rest == "" {
      assert l + rest == l;
    } else if IsBreak(l[0]) {
    } else {
      assert |l| > 1;
      assert (l + rest)[1..] == l[1..] + rest;
      FirstLineOfConcat(l[1..], rest);
    }
  }

  lemma {:induction false} SplitOfConcat(lines: seq<string>)
    requires WellSplit(lines)
    ensures SplitLines(Concat(lines)) == lines
  {
    if |lines| > 0 {
      var rest := Concat(lines[1..]);
      assert WellSplit(lines[1..]);
      SplitOfConcat(lines[1..]);
      if |lines| > 1 {
        assert rest[0] == lines[1][0];
      }
      FirstLineOfConcat(lines[0], rest);
      assert Concat(lines)[|lines[0]|..] == rest;
      assert Concat(lines)[..|lines[0]|] == lines[0];
    }
  }

  /** The first line is a line, and if anything follows it, it is set apart from it. */
  lemma {:induction false} FirstLineIsLine(s: string)
    requires s != ""
    ensures IsLine(s[..FirstLine(s)])
    ensures FirstLine(s) < |s| ==> Separable(s[..FirstLine(s)], s[FirstLine(s)..])
  {
    if !IsBreak(s[0]) && |s| > 1 {
      FirstLineIsLine(s[1..]);
      var n := FirstLine(s);
      assert s[..n][1..] == s[1..][..n - 1];
      assert s[n..] == s[1..][n - 1..];
    }
  }

  lemma {:induction false} SplitIsWellSplit(s: string)
    ensures WellSplit(SplitLines(s))
    ensures Concat(SplitLines(s)) == s
  {
    hide IsBreak, IsLine, Terminated, FirstLine;
    if s != "" {
      var n := FirstLine(s);
      FirstLineIsLine(s);
      SplitIsWellSplit(s[n..]);
      assert s == s[..n] + s[n..];
      if n < |s| {
        assert SplitLines(s[n..])[0][0] == s[n];
      }
    }
  }

  /** Splitting what was joined gives the pieces back exactly when they were well split. */
  lemma ResplitIff(lines: seq<string>)
    ensures SplitLines(Concat(lines)) == lines <==> WellSplit(lines)
  {
    SplitIsWellSplit(Concat(lines));
    if WellSplit(lines) {
      SplitOfConcat(lines);
    }
  }

  lemma {:induction false} ConcatAppend(a: seq<string>, b: seq<string>)
    ensures Concat(a + b) == Concat(a) + Concat(b)
  {
    if |a| == 0 {
      assert a + b == b;
    } else {
      assert (a + b)[1..] == a[1..] + b;
      ConcatAppend(a[1..], b);
    }
  }

  lemma {:induction false} CharsOfConcat(lines: seq<string>, i: nat, c: char)
    requires i < |lines| && c in lines[i]
    ensures c in Concat(lines)
  {
    if i > 0 {
      CharsOfConcat(lines[1..], i - 1, c);
    }
  }

  lemma WellSplitSlice(lines: seq<string>, a: nat, b: nat)
    requires WellSplit(lines) && a <= b <= |lines|
    ensures WellSplit(lines[a..b])
  {
    var w := lines[a..b];
    forall i | 0 <= i < |w| - 1 ensures Separable(w[i], w[i + 1]) {
      assert Separable(lines[a + i], lines[a + i + 1]);
    }
  }

  /** `str.rstrip("\n")`. */
  function RStripNewlines(s: string): (r: string)
    ensures r <= s
    ensures r == "" || r[|r| - 1] != '\n'
  {
    if s != "" && s[|s| - 1] == '\n' then RStripNewlines(s[..|s| - 1]) else s
  }

  /** The line without its terminator, as `str.splitlines()` gives it. */
  function Chomp(l: string): (r: string)
    ensures r <= l
  {
    if EndsWith(l, "\r\n") then l[..|l| - 2]
    else if Terminated(l) then l[..|l| - 1]
    else l
  }

  /** A line has no break character before its terminator. */
  lemma {:induction false} LineBreaksAtEnd(l: string, i: nat)
    requires IsLine(l) && i < |l| && IsBreak(l[i])
    ensures i == |l| - 1 || (i == |l| - 2 && l[i..] == "\r\n")
  {
    if !IsBreak(l[0]) {
      LineBreaksAtEnd(l[1..], i - 1);
    }
  }

  /** Text without a break before its last character is one line. */
  lemma {:induction false} BreaklessIsLine(l: string)
    requires l != "" && forall i :: 0 <= i < |l| - 1 ==> !IsBreak(l[i])
    ensures IsLine(l)
  {
    if |l| > 1 {
      assert l[0..][0] == l[0];
      forall i | 0 <= i < |l[1..]| - 1 ensures !IsBreak(l[1..][i]) {
        assert l[1..][i] == l[i + 1];
      }
      BreaklessIsLine(l[1..]);
    }
  }

  /** `s.replace("\r\n", "\n")`. */
  function NormalizeCrlf(s: string): string {
    if |s| < 2 then s
    else if s[0] == '\r' && s[1] == '\n' then "\n" + NormalizeCrlf(s[2..])
    else [s[0]] + NormalizeCrlf(s[1..])
  }

  predicate HasCrlf(s: string) {
    exists i :: 0 <= i < |s| - 1 && s[i] == '\r' && s[i + 1] == '\n'
  }

  lemma {:induction false} NormalizeCrlfIdentity(s: string)
    requires !HasCrlf(s)
    ensures NormalizeCrlf(s) == s
  {
    if |s| >= 2 {
      assert s[0] != '\r' || s[0 + 1] != '\n';
      assert !HasCrlf(s[1..]) by {
        forall i | 0 <= i < |s[1..]| - 1 ensures !(s[1..][i] == '\r' && s[1..][i + 1] == '\n') {
          assert !(s[i + 1] == '\r' && s[i + 1 + 1] == '\n');
        }
      }
      NormalizeCrlfIdentity(s[1..]);
    }
  }

  /** Joining pieces creates no "\r\n" of its own when no piece starts with '\n'. */
  lemma {:induction false} ConcatHasNoCrlf(lines: seq<string>)
    requires forall k :: 0 <= k < |lines| ==> lines[k] != "" && lines[k][0] != '\n' && !HasCrlf(lines[k])
    ensures !HasCrlf(Concat(lines))
    ensures Concat(lines) == "" || Concat(lines)[0] != '\n'
  {
    if |lines| > 0 {
      ConcatHasNoCrlf(lines[1..]);
      var l, rest := lines[0], Concat(lines[1..]);
      forall i | 0 <= i < |l + rest| - 1 ensures !((l + rest)[i] == '\r' && (l + rest)[i + 1] == '\n') {
        if i < |l| - 1 {
          assert !(l[i] == '\r' && l[i + 1] == '\n');
        } else if i >= |l| {
          var j := i - |l|;
          assert !(rest[j] == '\r' && rest[j + 1] == '\n');
        }
      }
    }
  }

  // ----- The same, character by character -----

  /** Every character that ends a line, as `str.splitlines` documents them. */
  const BREAKS: set<char> := {'\n', '\U{B}', '\U{C}', '\r', '\U{1C}', '\U{1D}', '\U{1E}', '\U{85}', '\U{2028}', '\U{2029}'}

  predicate Unbroken(s: string) {
    forall i :: 0 <= i < |s| ==> s[i] !in BREAKS
  }

  lemma {:induction false} FirstBreakEndsLine(a: string, c: char, b: string)
    requires Unbroken(a) && c in BREAKS && !(c == '\r' && b != "" && b[0] == '\n')
    ensures FirstLine(a + [c] + b) == |a| + 1
  {
    var s := a + [c] + b;
    if a == "" {
      assert s[0] == c && (b != "" ==> s[1] == b[0]);
    } else {
      assert s[0] == a[0] && s[1..] == a[1..] + [c] + b;
      FirstBreakEndsLine(a[1..], c, b);
    }
  }

  lemma {:induction false} CrlfEndsLine(a: string, b: string)
    requires Unbroken(a)
    ensures FirstLine(a + "\r\n" + b) == |a| + 2
  {
    var s := a + "\r\n" + b;
    if a != "" {
      assert s[0] == a[0] && s[1..] == a[1..] + "\r\n" + b;
      CrlfEndsLine(a[1..], b);
    }
  }

  lemma BreakIff(c: char)
    ensures IsBreak(c) <==> c in BREAKS
  {
  }

  lemma SplitOff(line: string, b: string)
    requires line != "" && FirstLine(line + b) == |line|
    ensures SplitLines(line + b) == [line] + SplitLines(b)
  {
    assert (line + b)[..|line|] == line && (line + b)[|line|..] == b;
  }

  /** Splitting, in full: a text without breaks is one line; a break ends a line; "\r\n" is one break. */
  lemma SplitLaws(a: string, c: char, b: string)
    requires Unbroken(a)
    ensures SplitLines("") == [] && (a != "" ==> SplitLines(a) == [a])
    ensures c in BREAKS && !(c == '\r' && b != "" && b[0] == '\n') ==>
      SplitLines(a + [c] + b) == [a + [c]] + SplitLines(b)
    ensures SplitLines(a + "\r\n" + b) == [a + "\r\n"] + SplitLines(b)
  {
    hide FirstLine, SplitLines;
    SplitNothing();
    if a != "" {
      UnbrokenIsOne(a);
    }
    if c in BREAKS && !(c == '\r' && b != "" && b[0] == '\n') {
      FirstBreakEndsLine(a, c, b);
      SplitOff(a + [c], b);
    }
    CrlfEndsLine(a, b);
    SplitOff(a + "\r\n", b);
  }

  lemma SplitNothing()
    ensures SplitLines("") == []
  {
  }

  lemma UnbrokenIsOne(a: string)
    requires a != "" && Unbroken(a)
    ensures SplitLines(a) == [a]
  {
    hide FirstLine, IsBreak;
    forall i | 0 <= i < |a| - 1 ensures !IsBreak(a[i]) {
      BreakIff(a[i]);
    }
    BreaklessIsLine(a);
    assert a + "" == a;
    SplitOff(a, "");
    SplitNothing();
  }

  /** `Chomp` takes off exactly the terminator. */
  lemma ChompLaws(a: string, c: char)
    requires Unbroken(a)
    ensures Chomp(a) == a && Chomp(a + "\r\n") == a
    ensures c in BREAKS ==> Chomp(a + [c]) == a
  {
    hide IsBreak;
    UnbrokenStays(a);
    var crlf, l := a + "\r\n", a + [c];
    assert crlf[|a|..] == "\r\n" && crlf[..|a|] == a;
    assert l[..|a|] == a && l[|l| - 1] == c;
    BreakIff(c);
    EndsInCrlf(l);
    assert a != "" ==> a[|a| - 1] == l[|l| - 2];
  }

  lemma EndsInCrlf(s: string)
    ensures EndsWith(s, "\r\n") ==> |s| >= 2 && s[|s| - 2] == '\r' && s[|s| - 1] == '\n'
  {
    assert |s| >= 2 ==> s[|s| - 2] == s[|s| - 2..][0] && s[|s| - 1] == s[|s| - 2..][1];
  }

  lemma UnbrokenStays(a: string)
    requires Unbroken(a)
    ensures Chomp(a) == a
  {
    hide IsBreak;
    if a != "" {
      BreakIff(a[|a| - 1]);
    }
    EndsInCrlf(a);
  }

  lemma CrlfStart(rest: string)
    ensures NormalizeCrlf("\r\n" + rest) == "\n" + NormalizeCrlf(rest)
  {
    assert ("\r\n" + rest)[2..] == rest;
  }

  lemma CrlfOther(c: char, rest: string)
    requires !(c == '\r' && rest != "" && rest[0] == '\n')
    ensures NormalizeCrlf([c] + rest) == [c] + NormalizeCrlf(rest)
  {
    assert ([c] + rest)[1..] == rest;
    assert rest == "" ==> [c] + rest == [c];
  }

  /** Each "\r\n" becomes one '\n', wherever it stands. */
  lemma {:induction false} NormalizeCrlfAt(a: string, b: string)
    ensures NormalizeCrlf(a + "\r\n" + b) == NormalizeCrlf(a) + "\n" + NormalizeCrlf(b)
    decreases |a|
  {
    hide NormalizeCrlf;
    if |a| == 0 {
      CrlfStart(b);
      NothingToNormalize(a);
      assert a + "\r\n" + b == "\r\n" + b;
    } else if |a| >= 2 && a[0] == '\r' && a[1] == '\n' {
      assert a == "\r\n" + a[2..] && a + "\r\n" + b == "\r\n" + (a[2..] + "\r\n" + b);
      CrlfStart(a[2..]);
      CrlfStart(a[2..] + "\r\n" + b);
      NormalizeCrlfAt(a[2..], b);
    } else {
      assert a == [a[0]] + a[1..] && a + "\r\n" + b == [a[0]] + (a[1..] + "\r\n" + b);
      CrlfOther(a[0], a[1..]);
      CrlfOther(a[0], a[1..] + "\r\n" + b);
      NormalizeCrlfAt(a[1..], b);
    }
  }

  lemma NothingToNormalize(s: string)
    requires s == ""
    ensures NormalizeCrlf(s) == ""
  {
  }
}
