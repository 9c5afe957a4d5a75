/**
 UTF-8 (section 4 of RFC 3629) and `String::from_utf8_lossy`: every maximal ill-formed
 piece becomes one U+FFFD, everything else decodes as usual.
 */
module Utf8 {
  import opened Text

  type Byte = b: int | 0 <= b < 256

  const REPLACEMENT: int := 0xFFFD

  predicate Scalar(c: int) {
    0 <= c < 0xD800 || 0xE000 <= c <= 0x10FFFF
  }

  predicate Continuation(b: int) {
    0x80 <= b <= 0xBF
  }

  /** Byte `i`, or 0 past the end, as the decoder's own lookahead reads it. */
  function Peek(s: seq<Byte>, i: nat): int {
    if i < |s| then s[i] else 0
  }

  predicate SecondOfThree(b0: int, b1: int) {
    || (b0 == 0xE0 && 0xA0 <= b1 <= 0xBF)
    || (0xE1 <= b0 <= 0xEC && Continuation(b1))
    || (b0 == 0xED && 0x80 <= b1 <= 0x9F)
    || (0xEE <= b0 <= 0xEF && Continuation(b1))
  }

  predicate SecondOfFour(b0: int, b1: int) {
    || (b0 == 0xF0 && 0x90 <= b1 <= 0xBF)
    || (0xF1 <= b0 <= 0xF3 && Continuation(b1))
    || (b0 == 0xF4 && 0x80 <= b1 <= 0x8F)
  }

  datatype Piece = Piece(size: nat, codePoint: int)

  /** The first piece of a non-empty byte string: a character, or one ill-formed run. */
  function First(s: seq<Byte>): (p: Piece)
    requires s != []
    ensures 1 <= p.size <= |s|
    ensures Scalar(p.codePoint)
    ensures s[0] < 0x80 ==> p == Piece(1, s[0])
    ensures s[0] >= 0x80 ==> p.codePoint >= 0x80 && forall k :: 0 <= k < p.size ==> s[k] >= 0x80
  {
    var b0 := s[0];
    var b1 := Peek(s, 1);
    var b2 := Peek(s, 2);
    var b3 := Peek(s, 3);
    if b0 < 0x80 then Piece(1, b0)
    else if 0xC2 <= b0 <= 0xDF then
      if !Continuation(b1) then Piece(1, REPLACEMENT)
      else Piece(2, (b0 - 0xC0) * 0x40 + (b1 - 0x80))
    else if 0xE0 <= b0 <= 0xEF then
      if !SecondOfThree(b0, b1) then Piece(1, REPLACEMENT)
      else if !Continuation(b2) then Piece(2, REPLACEMENT)
      else Piece(3, (b0 - 0xE0) * 0x1000 + (b1 - 0x80) * 0x40 + (b2 - 0x80))
    else if 0xF0 <= b0 <= 0xF4 then
      if !SecondOfFour(b0, b1) then Piece(1, REPLACEMENT)
      else if !Continuation(b2) then Piece(2, REPLACEMENT)
      else if !Continuation(b3) then Piece(3, REPLACEMENT)
      else Piece(4, (b0 - 0xF0) * 0x4_0000 + (b1 - 0x80) * 0x1000 + (b2 - 0x80) * 0x40 + (b3 - 0x80))
    else Piece(1, REPLACEMENT)
  }

  function DecodeLossy(s: seq<Byte>): seq<int> {
    if s == [] then [] else var p := First(s); [p.codePoint] + DecodeLossy(s[p.size..])
  }

  function EncodeChar(c: int): seq<Byte>
    requires Scalar(c)
  {
    var high := c / 0x40;
    var last := 0x80 + c % 0x40;
    if c < 0x80 then [c]
    else if c < 0x800 then [0xC0 + high, last]
    else if c < 0x1_0000 then [0xE0 + high / 0x40, 0x80 + high % 0x40, last]
    else [0xF0 + high / 0x40 / 0x40, 0x80 + high / 0x40 % 0x40, 0x80 + high % 0x40, last]
  }

  function Encode(text: seq<int>): seq<Byte>
    requires forall i :: 0 <= i < |text| ==> Scalar(text[i])
  {
    if text == [] then [] else EncodeChar(text[0]) + Encode(text[1..])
  }

  lemma FirstOfEncoded(c: int, rest: seq<Byte>)
    requires Scalar(c)
    ensures First(EncodeChar(c) + rest) == Piece(|EncodeChar(c)|, c)
  {
  }

  /** On well-formed UTF-8 the lossy decoder loses nothing. */
  lemma {:induction false} DecodeOfEncode(text: seq<int>)
    requires forall i :: 0 <= i < |text| ==> Scalar(text[i])
    ensures DecodeLossy(Encode(text)) == text
  {
    if text != [] {
      var rest := Encode(text[1..]);
      FirstOfEncoded(text[0], rest);
      DecodeOfEncode(text[1..]);
      assert (EncodeChar(text[0]) + rest)[|EncodeChar(text[0])|..] == rest;
    }
  }

  // ---------- ill-formed bytes ----------

  /** A non-empty beginning of a character's bytes, short of the whole. */
  ghost predicate Truncated(t: seq<Byte>) {
    exists c :: Scalar(c) && 0 < |t| < |EncodeChar(c)| && t <= EncodeChar(c)
  }

  /** The bytes that may follow each other in a character. */
  lemma EncodedShape(c: int)
    requires Scalar(c)
    ensures var e := EncodeChar(c);
            && (|e| == 2 ==> 0xC2 <= e[0] <= 0xDF)
            && (|e| == 3 ==> SecondOfThree(e[0], e[1]))
            && (|e| == 4 ==> SecondOfFour(e[0], e[1]))
            && forall k :: 1 <= k < |e| ==> Continuation(e[k])
  {
  }

  lemma TruncatedShape(s: seq<Byte>, n: nat)
    requires 1 < n <= |s| && Truncated(s[..n])
    ensures SecondOfThree(s[0], s[1]) || SecondOfFour(s[0], s[1])
    ensures n > 2 ==> SecondOfFour(s[0], s[1]) && Continuation(s[2])
    ensures n <= 3
  {
    var c :| Scalar(c) && n < |EncodeChar(c)| && s[..n] <= EncodeChar(c);
    EncodedShape(c);
    assert s[..n][0] == s[0] && s[..n][1] == s[1];
    assert n > 2 ==> s[..n][2] == s[2];
  }

  lemma OfTwo(b0: Byte, b1: Byte)
    requires 0xC2 <= b0 <= 0xDF && Continuation(b1)
    ensures EncodeChar((b0 - 0xC0) * 0x40 + (b1 - 0x80)) == [b0, b1]
  {
  }

  lemma OfThree(b0: Byte, b1: Byte, b2: Byte)
    requires SecondOfThree(b0, b1) && Continuation(b2)
    ensures var c := (b0 - 0xE0) * 0x1000 + (b1 - 0x80) * 0x40 + (b2 - 0x80);
            Scalar(c) && EncodeChar(c) == [b0, b1, b2]
  {
  }

  lemma OfFour(b0: Byte, b1: Byte, b2: Byte, b3: Byte)
    requires SecondOfFour(b0, b1) && Continuation(b2) && Continuation(b3)
    ensures var c := (b0 - 0xF0) * 0x4_0000 + (b1 - 0x80) * 0x1000 + (b2 - 0x80) * 0x40 + (b3 - 0x80);
            Scalar(c) && EncodeChar(c) == [b0, b1, b2, b3]
  {
    var c := (b0 - 0xF0) * 0x4_0000 + (b1 - 0x80) * 0x1000 + (b2 - 0x80) * 0x40 + (b3 - 0x80);
    assert c / 0x40 == (b0 - 0xF0) * 0x1000 + (b1 - 0x80) * 0x40 + (b2 - 0x80) && c % 0x40 == b3 - 0x80;
    assert c / 0x40 / 0x40 == (b0 - 0xF0) * 0x40 + (b1 - 0x80);
  }

  /** The bytes at the start that could belong to one character. */
  function RunLength(s: seq<Byte>): nat
    requires s != []
  {
    var b1 := Peek(s, 1);
    if SecondOfThree(s[0], b1) then 2
    else if SecondOfFour(s[0], b1) then (if Continuation(Peek(s, 2)) then 3 else 2)
    else 1
  }

  lemma NoCharacter(s: seq<Byte>)
    requires s != [] && forall c :: Scalar(c) ==> !(EncodeChar(c) <= s)
    ensures First(s) == Piece(RunLength(s), REPLACEMENT) && RunLength(s) <= |s|
  {
    if |s| > 1 && 0xC2 <= s[0] <= 0xDF && Continuation(s[1]) {
      OfTwo(s[0], s[1]);
    } else if |s| > 2 && SecondOfThree(s[0], s[1]) && Continuation(s[2]) {
      OfThree(s[0], s[1], s[2]);
    } else if |s| > 3 && SecondOfFour(s[0], s[1]) && Continuation(s[2]) && Continuation(s[3]) {
      OfFour(s[0], s[1], s[2], s[3]);
    }
  }

  lemma RunIsTruncated(s: seq<Byte>)
    requires s != [] && 1 < RunLength(s) <= |s|
    ensures Truncated(s[..RunLength(s)])
  {
    var n := RunLength(s);
    if SecondOfThree(s[0], s[1]) {
      OfThree(s[0], s[1], 0x80);
      assert s[..n] <= [s[0], s[1], 0x80];
    } else {
      var b2 := if n == 3 then s[2] else 0x80;
      OfFour(s[0], s[1], b2, 0x80);
      assert s[..n] <= [s[0], s[1], b2, 0x80];
    }
  }

  /** How ill-formed bytes are read: when no character starts here, the longest beginning of a
      character, or else a single byte, becomes one U+FFFD (section 3.9 of the Unicode Standard). */
  lemma IllFormedRun(s: seq<Byte>)
    requires s != [] && forall c :: Scalar(c) ==> !(EncodeChar(c) <= s)
    ensures var p := First(s);
            && p.codePoint == 0xFFFD
            && (p.size == 1 || Truncated(s[..p.size]))
            && forall n :: p.size < n <= |s| ==> !Truncated(s[..n])
  {
    NoCharacter(s);
    if RunLength(s) > 1 {
      RunIsTruncated(s);
    }
    forall n | RunLength(s) < n <= |s| ensures !Truncated(s[..n]) {
      if Truncated(s[..n]) {
        TruncatedShape(s, n);
      }
    }
  }

  // ---------- ASCII patterns survive lossy decoding ----------

  predicate Ascii(p: seq<int>) {
    forall i :: 0 <= i < |p| ==> 0 <= p[i] < 0x80
  }

  lemma {:induction false} AsciiPrefix(s: seq<Byte>, p: seq<int>)
    requires Ascii(p)
    ensures p <= DecodeLossy(s) <==> p <= s
  {
    if p != [] && s != [] {
      var head := First(s);
      var decoded := DecodeLossy(s);
      assert decoded[0] == head.codePoint && decoded[1..] == DecodeLossy(s[head.size..]);
      assert p <= decoded <==> p[0] == decoded[0] && p[1..] <= decoded[1..];
      assert p <= s <==> p[0] == s[0] && p[1..] <= s[1..];
      if s[0] < 0x80 {
        AsciiPrefix(s[1..], p[1..]);
      }
    }
  }

  /** Every byte string, well-formed or not: an ASCII pattern is found in the decoded text
      exactly when it is found in the bytes. */
  lemma {:induction false} AsciiSearch(s: seq<Byte>, p: seq<int>)
    requires Ascii(p) && p != []
    ensures Contains(DecodeLossy(s), p) <==> Contains(s, p)
    decreases |s|
  {
    if s == [] {
      assert !Contains(s, p);
    } else {
      var head := First(s);
      var decoded := DecodeLossy(s);
      var tail := s[head.size..];
      AsciiPrefix(s, p);
      AsciiSearch(tail, p);
      assert decoded == [head.codePoint] + DecodeLossy(tail);
      ContainsAfter(decoded, p, 1);
      assert decoded[1..] == DecodeLossy(tail);
      ContainsAfter(s, p, head.size);
    }
  }

  /** An occurrence starts at 0, or at or after `n`, when none can start strictly between. */
  lemma ContainsAfter(s: seq<int>, p: seq<int>, n: nat)
    requires 1 <= n <= |s| && p != []
    requires forall k :: 1 <= k < n ==> s[k] != p[0]
    ensures Contains(s, p) <==> p <= s || Contains(s[n..], p)
  {
    if Contains(s, p) {
      var i :| 0 <= i <= |s| && PrefixAt(s, p, i);
      if i >= n {
        assert s[n..][i - n..] == s[i..];
        assert PrefixAt(s[n..], p, i - n);
      } else {
        assert i == 0 by {
          assert s[i..][0] == s[i];
        }
        assert s[0..] == s;
      }
    }
    if p <= s {
      assert s[0..] == s;
      assert PrefixAt(s, p, 0);
    }
    if Contains(s[n..], p) {
      var i :| 0 <= i <= |s[n..]| && PrefixAt(s[n..], p, i);
      assert s[n..][i..] == s[n + i..];
      assert PrefixAt(s, p, n + i);
    }
  }
}
