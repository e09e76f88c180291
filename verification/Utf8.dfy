/** What valid strings are: the bytes a decoder accepts are exactly the encodings of
    sequences of Unicode scalar values (section 3 of RFC 3629). */
module Utf8 {
  import opened Common
  import opened Encoding

  /** A code point that is not a surrogate. */
  predicate Scalar(c: nat) {
    c < 0x11_0000 && !(0xD800 <= c <= 0xDFFF)
  }

  function EncodeChar(c: nat): (bs: Bytes)
    requires Scalar(c)
    ensures bs != []
  {
    if c <= 0x7F then [c]
    else if c <= 0x7FF then [0xC0 + c / 0x40, 0x80 + c % 0x40]
    else if c <= 0xFFFF then [0xE0 + c / 0x1000, 0x80 + c / 0x40 % 0x40, 0x80 + c % 0x40]
    else [0xF0 + c / 0x4_0000, 0x80 + c / 0x1000 % 0x40, 0x80 + c / 0x40 % 0x40, 0x80 + c % 0x40]
  }

  ghost predicate Scalars(cs: seq<nat>) {
    forall i :: 0 <= i < |cs| ==> Scalar(cs[i])
  }

  function EncodeText(cs: seq<nat>): Bytes
    requires Scalars(cs)
  {
    if cs == [] then [] else EncodeChar(cs[0]) + EncodeText(cs[1..])
  }

  /** Code points from the bits of two, three and four bytes. */
  function Two(x: int, y: int): int {
    (x - 0xC0) * 0x40 + (y - 0x80)
  }

  function Three(x: int, y: int, z: int): int {
    (x - 0xE0) * 0x1000 + (y - 0x80) * 0x40 + (z - 0x80)
  }

  function Four(x: int, y: int, z: int, w: int): int {
    (x - 0xF0) * 0x4_0000 + (y - 0x80) * 0x1000 + (z - 0x80) * 0x40 + (w - 0x80)
  }

  lemma TwoBack(x: int, y: int)
    requires 0xC2 <= x <= 0xDF && 0x80 <= y <= 0xBF
    ensures var c := Two(x, y); 0x80 <= c <= 0x7FF && 0xC0 + c / 0x40 == x && 0x80 + c % 0x40 == y
  {
  }

  lemma ThreeBack(x: int, y: int, z: int)
    requires 0xE0 <= x <= 0xEF && 0x80 <= y <= 0xBF && 0x80 <= z <= 0xBF && (x == 0xE0 ==> 0xA0 <= y)
    ensures var c := Three(x, y, z);
            && 0x800 <= c <= 0xFFFF && (0xD800 <= c <= 0xDFFF <==> x == 0xED && y >= 0xA0)
            && 0xE0 + c / 0x1000 == x && 0x80 + c / 0x40 % 0x40 == y && 0x80 + c % 0x40 == z
  {
    var c := Three(x, y, z);
    assert c / 0x40 == (x - 0xE0) * 0x40 + (y - 0x80);
  }

  lemma FourBack(x: int, y: int, z: int, w: int)
    requires 0xF0 <= x <= 0xF4 && 0x80 <= y <= 0xBF && 0x80 <= z <= 0xBF && 0x80 <= w <= 0xBF
    requires (x == 0xF0 ==> 0x90 <= y) && (x == 0xF4 ==> y <= 0x8F)
    ensures var c := Four(x, y, z, w);
            && 0x1_0000 <= c < 0x11_0000 && 0xF0 + c / 0x4_0000 == x
            && 0x80 + c / 0x1000 % 0x40 == y && 0x80 + c / 0x40 % 0x40 == z && 0x80 + c % 0x40 == w
  {
    var c := Four(x, y, z, w);
    assert c / 0x40 == (x - 0xF0) * 0x1000 + (y - 0x80) * 0x40 + (z - 0x80);
    assert c / 0x1000 == (x - 0xF0) * 0x40 + (y - 0x80);
  }

  lemma ThreeRange(c: nat)
    requires 0x800 <= c <= 0xFFFF && Scalar(c)
    ensures var x, y := 0xE0 + c / 0x1000, 0x80 + c / 0x40 % 0x40;
            && 0xE0 <= x <= 0xEF && 0x80 <= y <= 0xBF
            && (x == 0xE0 ==> 0xA0 <= y) && (x == 0xED ==> y <= 0x9F)
  {
    assert c / 0x40 == c / 0x1000 * 0x40 + c / 0x40 % 0x40;
  }

  lemma FourRange(c: nat)
    requires 0x1_0000 <= c < 0x11_0000
    ensures var x, y := 0xF0 + c / 0x4_0000, 0x80 + c / 0x1000 % 0x40;
            && 0xF0 <= x <= 0xF4 && 0x80 <= y <= 0xBF
            && (x == 0xF0 ==> 0x90 <= y) && (x == 0xF4 ==> y <= 0x8F)
  {
    assert c / 0x1000 == c / 0x4_0000 * 0x40 + c / 0x1000 % 0x40;
  }

  /** The encoding of a code point is read as one character, whatever follows. */
  lemma CharRead(c: nat, rest: Bytes)
    requires Scalar(c)
    ensures CharLength(EncodeChar(c) + rest) == Some(|EncodeChar(c)|)
  {
    var bs := EncodeChar(c) + rest;
    if c <= 0x7F {
    } else if c <= 0x7FF {
      assert 2 <= c / 0x40 <= 0x1F;
    } else if c <= 0xFFFF {
      ThreeRange(c);
      var y, z := c / 0x40 % 0x40, c % 0x40;
      assert bs[0] == 0xE0 + c / 0x1000 && bs[1] == 0x80 + y && bs[2] == 0x80 + z;
    } else {
      FourRange(c);
      var y, z, w := c / 0x1000 % 0x40, c / 0x40 % 0x40, c % 0x40;
      assert bs[0] == 0xF0 + c / 0x4_0000 && bs[1] == 0x80 + y && bs[2] == 0x80 + z && bs[3] == 0x80 + w;
    }
  }

  /** A character at the front is the encoding of a code point. */
  lemma CharWritten(bs: Bytes) returns (c: nat)
    requires bs != [] && CharLength(bs).Some?
    ensures var n := CharLength(bs).value; 0 < n <= |bs| && Scalar(c) && bs[..n] == EncodeChar(c)
  {
    hide Two, Three, Four;
    match CharLength(bs).value {
      case 1 => c := bs[0];
      case 2 =>
        TwoBack(bs[0], bs[1]);
        c := Two(bs[0], bs[1]);
      case 3 =>
        ThreeBack(bs[0], bs[1], bs[2]);
        c := Three(bs[0], bs[1], bs[2]);
      case _ =>
        FourBack(bs[0], bs[1], bs[2], bs[3]);
        c := Four(bs[0], bs[1], bs[2], bs[3]);
    }
  }

  lemma {:induction false} TextIsUtf8(cs: seq<nat>)
    requires Scalars(cs)
    ensures IsUtf8(EncodeText(cs))
  {
    hide EncodeChar, CharLength;
    if cs != [] {
      var rest := EncodeText(cs[1..]);
      CharRead(cs[0], rest);
      assert (EncodeChar(cs[0]) + rest)[|EncodeChar(cs[0])|..] == rest;
      TextIsUtf8(cs[1..]);
    }
  }

  lemma {:induction false} Utf8IsText(bs: Bytes) returns (cs: seq<nat>)
    requires IsUtf8(bs)
    ensures Scalars(cs) && EncodeText(cs) == bs
    decreases |bs|
  {
    hide EncodeChar, CharLength;
    if bs == [] {
      cs := [];
    } else {
      var c := CharWritten(bs);
      var n := CharLength(bs).value;
      var more := Utf8IsText(bs[n..]);
      cs := [c] + more;
      assert cs[1..] == more;
      assert bs == bs[..n] + bs[n..];
    }
  }

  /** Bytes are valid exactly when they encode some text. */
  lemma ValidIffText(bs: Bytes)
    ensures IsUtf8(bs) <==> exists cs :: Scalars(cs) && EncodeText(cs) == bs
  {
    hide IsUtf8, EncodeText;
    if IsUtf8(bs) {
      var cs := Utf8IsText(bs);
    }
    if cs :| Scalars(cs) && EncodeText(cs) == bs {
      TextIsUtf8(cs);
    }
  }
}
