/** UTF-8: encoding, and the lossy decoding of `String::from_utf8_lossy`. */
module Utf8 {
  type Byte = x: int | 0 <= x < 256

  const REPLACEMENT := '\U{FFFD}'

  // ----- Encoding -----

  function EncodeChar(c: char): (b: seq<Byte>)
    ensures 1 <= |b| <= 4
  {
    var n := c as int;
    if n < 0x80 then [n]
    else if n < 0x800 then [0xC0 + n / 0x40, 0x80 + n % 0x40]
    else if n < 0x1_0000 then [0xE0 + n / 0x1000, 0x80 + n / 0x40 % 0x40, 0x80 + n % 0x40]
    else [0xF0 + n / 0x4_0000, 0x80 + n / 0x1000 % 0x40, 0x80 + n / 0x40 % 0x40, 0x80 + n % 0x40]
  }

  function Encode(s: string): seq<Byte> {
    if s == "" then [] else EncodeChar(s[0]) + Encode(s[1..])
  }

  // ----- Lossy decoding -----

  /** What the bytes start with: a character, an ill-formed piece, or a character that they cut off. */
  datatype Piece = Whole(c: char, size: nat) | Bad(size: nat) | Cut

  predicate IsTail(b: Byte) {
    0x80 <= b < 0xC0
  }

  /** The bytes that may come second, by the first one (Table 3-7 of the Unicode Standard, chapter 3). */
  predicate IsSecond(first: Byte, b: Byte) {
    if first == 0xE0 then 0xA0 <= b < 0xC0
    else if first == 0xED then 0x80 <= b < 0xA0
    else if first == 0xF0 then 0x90 <= b < 0xC0
    else if first == 0xF4 then 0x80 <= b < 0x90
    else IsTail(b)
  }

  /** The length a sequence with this first byte has to have; 0 if none starts so. */
  function SizeFor(first: Byte): (n: nat)
    ensures n <= 4
  {
    if first < 0x80 then 1
    else if 0xC2 <= first <= 0xDF then 2
    else if 0xE0 <= first <= 0xEF then 3
    else if 0xF0 <= first <= 0xF4 then 4
    else 0
  }

  function Char2(a: Byte, b: Byte): char
    requires SizeFor(a) == 2 && IsSecond(a, b)
  {
    ((a - 0xC0) * 0x40 + (b - 0x80)) as char
  }

  function Char3(a: Byte, b: Byte, c: Byte): char
    requires SizeFor(a) == 3 && IsSecond(a, b) && IsTail(c)
  {
    ((a - 0xE0) * 0x1000 + (b - 0x80) * 0x40 + (c - 0x80)) as char
  }

  function Char4(a: Byte, b: Byte, c: Byte, d: Byte): char
    requires SizeFor(a) == 4 && IsSecond(a, b) && IsTail(c) && IsTail(d)
  {
    ((a - 0xF0) * 0x4_0000 + (b - 0x80) * 0x1000 + (c - 0x80) * 0x40 + (d - 0x80)) as char
  }

  function FirstPiece(b: seq<Byte>): (p: Piece)
    requires |b| > 0
    ensures !p.Cut? ==> 0 < p.size <= |b|
  {
    var n := SizeFor(b[0]);
    if n == 0 then Bad(1)
    else if n == 1 then Whole(b[0] as char, 1)
    else if |b| == 1 then Cut
    else if !IsSecond(b[0], b[1]) then Bad(1)
    else if n == 2 then Whole(Char2(b[0], b[1]), 2)
    else if |b| == 2 then Cut
    else if !IsTail(b[2]) then Bad(2)
    else if n == 3 then Whole(Char3(b[0], b[1], b[2]), 3)
    else if |b| == 3 then Cut
    else if !IsTail(b[3]) then Bad(3)
    else Whole(Char4(b[0], b[1], b[2], b[3]), 4)
  }

  /** Each ill-formed piece, and a cut-off end, becomes one replacement character. */
  function Decode(b: seq<Byte>): string {
    if |b| == 0 then ""
    else match FirstPiece(b)
      case Whole(c, n) => [c] + Decode(b[n..])
      case Bad(n) => [REPLACEMENT] + Decode(b[n..])
      case Cut => [REPLACEMENT]
  }

  // ----- Decoding undoes encoding -----

  lemma EncodedPiece(c: char, rest: seq<Byte>)
    ensures FirstPiece(EncodeChar(c) + rest) == Whole(c, |EncodeChar(c)|)
  {
    var n, b := c as int, EncodeChar(c);
    var s := b + rest;
    assert forall i :: 0 <= i < |b| ==> s[i] == b[i];
    if 0x80 <= n < 0x800 {
      TwoBytes(c);
    } else if 0x800 <= n < 0x1_0000 {
      ThreeBytes(c);
    } else if n >= 0x1_0000 {
      FourBytes(c);
    }
  }

  lemma TwoBytes(c: char)
    requires 0x80 <= c as int < 0x800
    ensures var b := EncodeChar(c); SizeFor(b[0]) == 2 && IsSecond(b[0], b[1]) && Char2(b[0], b[1]) == c
  {
  }

  lemma ThreeBytes(c: char)
    requires 0x800 <= c as int < 0x1_0000
    ensures var b := EncodeChar(c);
      SizeFor(b[0]) == 3 && IsSecond(b[0], b[1]) && IsTail(b[2]) && Char3(b[0], b[1], b[2]) == c
  {
  }

  lemma FourBytes(c: char)
    requires 0x1_0000 <= c as int
    ensures var b := EncodeChar(c);
      && SizeFor(b[0]) == 4 && IsSecond(b[0], b[1]) && IsTail(b[2]) && IsTail(b[3])
      && Char4(b[0], b[1], b[2], b[3]) == c
  {
    var n := c as int;
    var x := n / 0x40;
    var y := x / 0x40;
    assert n == x * 0x40 + n % 0x40 && x == y * 0x40 + x % 0x40 && y == y / 0x40 * 0x40 + y % 0x40;
    assert n / 0x1000 == y && n / 0x4_0000 == y / 0x40;
  }

  /** No character is cut off at the end. */
  predicate EndsWhole(b: seq<Byte>) {
    |b| == 0 || (!FirstPiece(b).Cut? && EndsWhole(b[FirstPiece(b).size..]))
  }

  /** An encoded text is read back, and ends whole. */
  lemma {:induction false} DecodeOfEncode(s: string)
    ensures Decode(Encode(s)) == s && EndsWhole(Encode(s))
  {
    hide EncodeChar, FirstPiece;
    if s != "" {
      EncodedPiece(s[0], Encode(s[1..]));
      DecodeOfEncode(s[1..]);
      assert (EncodeChar(s[0]) + Encode(s[1..]))[|EncodeChar(s[0])|..] == Encode(s[1..]);
      assert s == [s[0]] + s[1..];
    }
  }

  // ----- The three kinds of piece, in terms of the encoding alone -----

  /** The bytes read as a character are its encoding. */
  lemma WholeIsEncoded(b: seq<Byte>)
    requires |b| > 0 && FirstPiece(b).Whole?
    ensures EncodeChar(FirstPiece(b).c) == b[..FirstPiece(b).size]
  {
    var n := SizeFor(b[0]);
    if n == 2 {
      EncodedTwo(b[0], b[1]);
    } else if n == 3 {
      EncodedThree(b[0], b[1], b[2]);
    } else if n == 4 {
      EncodedFour(b[0], b[1], b[2], b[3]);
    }
  }

  lemma EncodedTwo(a: Byte, b: Byte)
    requires SizeFor(a) == 2 && IsSecond(a, b)
    ensures EncodeChar(Char2(a, b)) == [a, b]
  {
  }

  lemma EncodedThree(a: Byte, b: Byte, c: Byte)
    requires SizeFor(a) == 3 && IsSecond(a, b) && IsTail(c)
    ensures EncodeChar(Char3(a, b, c)) == [a, b, c]
  {
    var n := Char3(a, b, c) as int;
    assert n / 0x40 == (a - 0xE0) * 0x40 + (b - 0x80);
  }

  lemma EncodedFour(a: Byte, b: Byte, c: Byte, d: Byte)
    requires SizeFor(a) == 4 && IsSecond(a, b) && IsTail(c) && IsTail(d)
    ensures EncodeChar(Char4(a, b, c, d)) == [a, b, c, d]
  {
    var n := Char4(a, b, c, d) as int;
    assert n / 0x40 == (a - 0xF0) * 0x1000 + (b - 0x80) * 0x40 + (c - 0x80);
    assert n / 0x1000 == (a - 0xF0) * 0x40 + (b - 0x80);
    assert n / 0x4_0000 == a - 0xF0;
  }

  /** A character is read exactly where its encoding stands. */
  lemma WholeIff(b: seq<Byte>, c: char)
    requires |b| > 0
    ensures FirstPiece(b).Whole? && FirstPiece(b).c == c <==> EncodeChar(c) <= b
    ensures FirstPiece(b).Whole? ==> FirstPiece(b).size == |EncodeChar(FirstPiece(b).c)|
  {
    hide EncodeChar, FirstPiece;
    if FirstPiece(b).Whole? {
      WholeIsEncoded(b);
    }
    if EncodeChar(c) <= b {
      var rest := b[|EncodeChar(c)|..];
      assert b == EncodeChar(c) + rest;
      EncodedPiece(c, rest);
    }
  }

  /** The bytes are cut off exactly when they are the beginning, and no more, of an encoding. */
  lemma CutPieceIff(b: seq<Byte>)
    requires |b| > 0
    ensures FirstPiece(b).Cut? <==> exists c :: b < EncodeChar(c)
  {
    hide EncodeChar, FirstPiece, Completion;
    if FirstPiece(b).Cut? {
      var whole := b + Completion(b);
      WholeIsEncoded(whole);
      assert whole[..|whole|] == whole;
      assert b < EncodeChar(FirstPiece(whole).c);
    }
    forall c | b < EncodeChar(c) ensures FirstPiece(b).Cut? {
      var rest := EncodeChar(c)[|b|..];
      assert EncodeChar(c) == b + rest && EncodeChar(c) + [] == EncodeChar(c);
      EncodedPiece(c, []);
      if !FirstPiece(b).Cut? {
        PieceIsLocal(b, rest);
        assert false;
      }
    }
  }

  /** An ill-formed piece is one byte, or as long a beginning of an encoding as the bytes have. */
  lemma BadIsMaximal(b: seq<Byte>, m: nat)
    requires |b| > 0 && FirstPiece(b).Bad?
    ensures var n := FirstPiece(b).size;
      && (n == 1 || exists c :: b[..n] < EncodeChar(c))
      && (n < m <= |b| ==> forall c :: !(b[..m] <= EncodeChar(c)))
  {
    hide EncodeChar;
    var n := FirstPiece(b).size;
    if n > 1 {
      assert FirstPiece(b[..n]).Cut?;
      CutPieceIff(b[..n]);
    }
    if n < m <= |b| {
      BadStaysBad(b, m);
      CutPieceIff(b[..m]);
      forall c ensures !(b[..m] <= EncodeChar(c)) {
        WholeIff(b[..m], c);
      }
    }
  }

  lemma BadStaysBad(b: seq<Byte>, m: nat)
    requires |b| > 0 && FirstPiece(b).Bad? && FirstPiece(b).size < m <= |b|
    ensures FirstPiece(b[..m]) == FirstPiece(b)
  {
    assert forall i :: 0 <= i < m ==> b[..m][i] == b[i];
  }

  // ----- Where a text may be cut -----

  lemma PieceIsLocal(a: seq<Byte>, b: seq<Byte>)
    requires |a| > 0 && !FirstPiece(a).Cut?
    ensures FirstPiece(a + b) == FirstPiece(a)
  {
    assert forall i :: 0 <= i < |a| ==> (a + b)[i] == a[i];
  }

  lemma DecodeStep(b: seq<Byte>)
    requires |b| > 0 && !FirstPiece(b).Cut?
    ensures var p := FirstPiece(b);
      && Decode(b) == [if p.Whole? then p.c else REPLACEMENT] + Decode(b[p.size..])
      && (EndsWhole(b) <==> EndsWhole(b[p.size..]))
  {
    hide FirstPiece;
  }

  lemma {:induction false} DecodeAppend(a: seq<Byte>, b: seq<Byte>)
    requires EndsWhole(a)
    ensures Decode(a + b) == Decode(a) + Decode(b)
    ensures EndsWhole(a + b) <==> EndsWhole(b)
  {
    hide FirstPiece, Decode;
    if |a| == 0 {
      assert a + b == b && Decode(a) == "" by { DecodeOfNothing(a); }
    } else {
      var p := FirstPiece(a);
      PieceIsLocal(a, b);
      DecodeStep(a);
      DecodeStep(a + b);
      assert (a + b)[p.size..] == a[p.size..] + b;
      DecodeAppend(a[p.size..], b);
    }
  }

  lemma DecodeOfNothing(b: seq<Byte>)
    requires |b| == 0
    ensures Decode(b) == "" && EndsWhole(b)
  {
  }

  /** Bytes that complete the character which `b` cuts off. */
  function Completion(b: seq<Byte>): (r: seq<Byte>)
    requires |b| > 0 && FirstPiece(b).Cut?
    ensures 0 < |r| && FirstPiece(b + r).Whole? && FirstPiece(b + r).size == |b + r|
  {
    var n := SizeFor(b[0]);
    var second: Byte := if b[0] == 0xE0 then 0xA0 else if b[0] == 0xF0 then 0x90 else 0x80;
    if |b| == 1 then
      if n == 2 then [second] else if n == 3 then [second, 0x80] else [second, 0x80, 0x80]
    else if |b| == 2 then
      if n == 3 then [0x80] else [0x80, 0x80]
    else [0x80]
  }

  lemma DecodeNonEmpty(b: seq<Byte>)
    requires |b| > 0
    ensures |Decode(b)| > 0
  {
    hide FirstPiece;
  }

  /** After bytes that cut a character off, some continuation reads differently in one piece and in two. */
  lemma {:induction false} CutShows(a: seq<Byte>) returns (b: seq<Byte>)
    requires !EndsWhole(a)
    ensures Decode(a + b) != Decode(a) + Decode(b)
  {
    hide FirstPiece, Completion, Decode;
    if FirstPiece(a).Cut? {
      b := Completion(a);
      DecodeNonEmpty(b);
      DecodeStep(a + b);
      DecodeOfNothing((a + b)[|a + b|..]);
      DecodeOfCut(a);
      assert |Decode(a + b)| == 1;
    } else {
      var p := FirstPiece(a);
      DecodeStep(a);
      b := CutShows(a[p.size..]);
      PieceIsLocal(a, b);
      DecodeStep(a + b);
      assert (a + b)[p.size..] == a[p.size..] + b;
      var c := if p.Whole? then p.c else REPLACEMENT;
      var one, two := Decode(a[p.size..] + b), Decode(a[p.size..]) + Decode(b);
      assert Decode(a) + Decode(b) == [c] + two;
      assert ([c] + one)[1..] == one && ([c] + two)[1..] == two;
    }
  }

  lemma DecodeOfCut(b: seq<Byte>)
    requires |b| > 0 && FirstPiece(b).Cut?
    ensures Decode(b) == [REPLACEMENT]
  {
    hide FirstPiece;
  }

  /** Reading in two pieces always agrees with reading in one exactly after bytes that end whole. */
  lemma CutIff(a: seq<Byte>)
    ensures EndsWhole(a) <==> forall b :: Decode(a + b) == Decode(a) + Decode(b)
  {
    if EndsWhole(a) {
      forall b ensures Decode(a + b) == Decode(a) + Decode(b) {
        DecodeAppend(a, b);
      }
    } else {
      var b := CutShows(a);
    }
  }

  /** Concrete input: the two bytes of U+00E9, read one at a time, give two replacement characters. */
  lemma CutCharacter()
    ensures Encode("\U{E9}") == [0xC3, 0xA9]
    ensures Decode([0xC3, 0xA9]) == "\U{E9}" && Decode([0xC3]) + Decode([0xA9]) == "\U{FFFD}\U{FFFD}"
  {
    assert "\U{E9}"[1..] == "" && EncodeChar('\U{E9}') == [0xC3, 0xA9];
    assert Encode("\U{E9}") == [0xC3, 0xA9] + [];
    DecodeOfEncode("\U{E9}");
    assert [0xA9][1..] == [] && Decode([]) == "";
    assert Decode([0xA9]) == [REPLACEMENT] + "";
  }
}
