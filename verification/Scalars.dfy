/**
 Text and white space by code points: the byte patterns of Utf8 and Bytes are exactly the
 encodings of the Unicode scalar values, and of those that are white space.
 */
module Scalars {
  import opened Bytes
  import opened Utf8

  /** The code points that UTF-8 encodes: all but the surrogates. */
  predicate Scalar(c: int)
  {
    0 <= c <= 0x10_FFFF && !(0xD800 <= c <= 0xDFFF)
  }

  /** Section 3 of RFC 3629. */
  function Encode(c: int): (s: bytes)
    requires Scalar(c)
    ensures 1 <= |s| <= 4
  {
    if c < 0x80 then [c]
    else if c < 0x800 then [0xC0 + c / 64, 0x80 + c % 64]
    else if c < 0x1_0000 then [0xE0 + c / 4096, 0x80 + c / 64 % 64, 0x80 + c % 64]
    else [0xF0 + c / 262_144, 0x80 + c / 4096 % 64, 0x80 + c / 64 % 64, 0x80 + c % 64]
  }

  /** The property White_Space of Unicode. */
  predicate WhiteSpace(c: int)
  {
    || 9 <= c <= 13 || c == 0x20 || c == 0x85 || c == 0xA0 || c == 0x1680 || 0x2000 <= c <= 0x200A
    || c == 0x2028 || c == 0x2029 || c == 0x202F || c == 0x205F || c == 0x3000
  }

  // ---------------------------------------------------------------- every encoding is a character

  lemma TwoBytes(c: int, rest: bytes)
    requires 0x80 <= c < 0x800
    ensures CharAt(Encode(c) + rest) == 2
  {
    var s := Encode(c) + rest;
    assert s[0] == 0xC0 + c / 64 && s[1] == 0x80 + c % 64;
  }

  lemma ThreeBytes(c: int, rest: bytes)
    requires Scalar(c) && 0x800 <= c < 0x1_0000
    ensures CharAt(Encode(c) + rest) == 3
  {
    var s := Encode(c) + rest;
    assert s[0] == 0xE0 + c / 4096 && s[1] == 0x80 + c / 64 % 64 && s[2] == 0x80 + c % 64;
    assert c == 4096 * (c / 4096) + 64 * (c / 64 % 64) + c % 64;
  }

  lemma FourBytes(c: int, rest: bytes)
    requires 0x1_0000 <= c <= 0x10_FFFF
    ensures CharAt(Encode(c) + rest) == 4
  {
    var s := Encode(c) + rest;
    assert s[0] == 0xF0 + c / 262_144 && s[1] == 0x80 + c / 4096 % 64;
    assert s[2] == 0x80 + c / 64 % 64 && s[3] == 0x80 + c % 64;
    assert c == 262_144 * (c / 262_144) + 4096 * (c / 4096 % 64) + c % 4096;
  }

  lemma EncodedIsChar(c: int, rest: bytes)
    requires Scalar(c)
    ensures CharAt(Encode(c) + rest) == |Encode(c)|
  {
    if c < 0x80 {
      assert (Encode(c) + rest)[0] == c;
    } else if c < 0x800 {
      TwoBytes(c, rest);
    } else if c < 0x1_0000 {
      ThreeBytes(c, rest);
    } else {
      FourBytes(c, rest);
    }
  }

  // ---------------------------------------------------------------- every character is an encoding

  lemma FromTwo(b0: byte, b1: byte) returns (c: int)
    requires 0xC2 <= b0 <= 0xDF && Continuation(b1)
    ensures Scalar(c) && Encode(c) == [b0, b1]
  {
    c := 64 * (b0 - 0xC0) + (b1 - 0x80);
    assert c / 64 == b0 - 0xC0 && c % 64 == b1 - 0x80;
  }

  lemma FromThree(b0: byte, b1: byte, b2: byte) returns (c: int)
    requires 0xE0 <= b0 <= 0xEF && Second(b0, b1) && Continuation(b2)
    ensures Scalar(c) && Encode(c) == [b0, b1, b2]
  {
    c := 4096 * (b0 - 0xE0) + 64 * (b1 - 0x80) + (b2 - 0x80);
    assert c % 64 == b2 - 0x80 && c / 64 == 64 * (b0 - 0xE0) + (b1 - 0x80);
    assert c / 64 % 64 == b1 - 0x80 && c / 4096 == b0 - 0xE0;
  }

  lemma FromFour(b0: byte, b1: byte, b2: byte, b3: byte) returns (c: int)
    requires 0xF0 <= b0 <= 0xF4 && Second(b0, b1) && Continuation(b2) && Continuation(b3)
    ensures Scalar(c) && Encode(c) == [b0, b1, b2, b3]
  {
    c := 262_144 * (b0 - 0xF0) + 4096 * (b1 - 0x80) + 64 * (b2 - 0x80) + (b3 - 0x80);
    assert c % 64 == b3 - 0x80 && c / 64 == 4096 * (b0 - 0xF0) + 64 * (b1 - 0x80) + (b2 - 0x80);
    assert c / 64 % 64 == b2 - 0x80 && c / 4096 == 64 * (b0 - 0xF0) + (b1 - 0x80);
    assert c / 4096 % 64 == b1 - 0x80 && c / 262_144 == b0 - 0xF0;
  }

  lemma CharIsEncoded(s: bytes) returns (c: int)
    requires CharAt(s) > 0
    ensures Scalar(c) && Encode(c) == s[..CharAt(s)]
  {
    match CharAt(s) {
      case 1 =>
        c := s[0];
        assert s[..1] == [s[0]];
      case 2 =>
        c := FromTwo(s[0], s[1]);
        assert s[..2] == [s[0], s[1]];
      case 3 =>
        c := FromThree(s[0], s[1], s[2]);
        assert s[..3] == [s[0], s[1], s[2]];
      case _ =>
        c := FromFour(s[0], s[1], s[2], s[3]);
        assert s[..4] == [s[0], s[1], s[2], s[3]];
    }
  }

  // ---------------------------------------------------------------- text

  ghost predicate Scalars(cs: seq<int>)
  {
    forall i :: 0 <= i < |cs| ==> Scalar(cs[i])
  }

  ghost function EncodeAll(cs: seq<int>): bytes
    requires Scalars(cs)
  {
    if cs == [] then [] else Encode(cs[0]) + EncodeAll(cs[1..])
  }

  lemma {:induction false} EncodedIsText(cs: seq<int>)
    requires Scalars(cs)
    ensures ValidUtf8(EncodeAll(cs))
  {
    if cs != [] {
      var s, rest := EncodeAll(cs), EncodeAll(cs[1..]);
      EncodedIsText(cs[1..]);
      EncodedIsChar(cs[0], rest);
      assert s[CharAt(s)..] == rest;
    }
  }

  lemma {:induction false} TextIsEncoded(s: bytes) returns (cs: seq<int>)
    requires ValidUtf8(s)
    ensures Scalars(cs) && EncodeAll(cs) == s
    decreases |s|
  {
    if s == [] {
      cs := [];
    } else {
      var c := CharIsEncoded(s);
      var rest := TextIsEncoded(s[CharAt(s)..]);
      cs := [c] + rest;
      assert cs[1..] == rest;
      assert s == s[..CharAt(s)] + s[CharAt(s)..];
    }
  }

  /** Text is exactly the encodings of sequences of scalar values. */
  lemma TextIsScalars(s: bytes)
    ensures ValidUtf8(s) <==> exists cs :: Scalars(cs) && EncodeAll(cs) == s
  {
    if ValidUtf8(s) {
      var cs := TextIsEncoded(s);
    }
    if cs :| Scalars(cs) && EncodeAll(cs) == s {
      EncodedIsText(cs);
    }
  }

  // ---------------------------------------------------------------- white space

  lemma SpaceOfTwo(c: int, rest: bytes)
    requires 0x80 <= c < 0x800
    ensures SpaceAt(Encode(c) + rest) == if WhiteSpace(c) then 2 else 0
  {
    var s := Encode(c) + rest;
    assert s[0] == 0xC0 + c / 64 && s[1] == 0x80 + c % 64;
    assert s[0] == 0xC2 <==> 0x80 <= c < 0xC0;
  }

  lemma SpaceOfThree(c: int, rest: bytes)
    requires Scalar(c) && 0x800 <= c < 0x1_0000
    ensures SpaceAt(Encode(c) + rest) == if WhiteSpace(c) then 3 else 0
  {
    var s := Encode(c) + rest;
    assert s[0] == 0xE0 + c / 4096 && s[1] == 0x80 + c / 64 % 64 && s[2] == 0x80 + c % 64;
    assert c == 4096 * (c / 4096) + 64 * (c / 64 % 64) + c % 64;
  }

  lemma EndOfTwo(a: bytes, c: int)
    requires 0x80 <= c < 0x800
    ensures SpaceEnd(a + Encode(c)) == if WhiteSpace(c) then 2 else 0
  {
    var s := a + Encode(c);
    var k := |s|;
    assert s[k - 2] == 0xC0 + c / 64 && s[k - 1] == 0x80 + c % 64;
    assert s[k - 2] == 0xC2 <==> 0x80 <= c < 0xC0;
  }

  lemma EndOfThree(a: bytes, c: int)
    requires Scalar(c) && 0x800 <= c < 0x1_0000
    ensures SpaceEnd(a + Encode(c)) == if WhiteSpace(c) then 3 else 0
  {
    var s := a + Encode(c);
    var k := |s|;
    assert s[k - 3] == 0xE0 + c / 4096 && s[k - 2] == 0x80 + c / 64 % 64 && s[k - 1] == 0x80 + c % 64;
    assert c == 4096 * (c / 4096) + 64 * (c / 64 % 64) + c % 64;
  }

  lemma EndOfFour(a: bytes, c: int)
    requires 0x1_0000 <= c <= 0x10_FFFF
    ensures SpaceEnd(a + Encode(c)) == 0
  {
    var s := a + Encode(c);
    var k := |s|;
    assert s[k - 3] == 0x80 + c / 4096 % 64 && s[k - 2] == 0x80 + c / 64 % 64 && s[k - 1] == 0x80 + c % 64;
  }

  /** The same at the end, whatever stands before. */
  lemma SpaceEndIsWhiteSpace(a: bytes, c: int)
    requires Scalar(c)
    ensures SpaceEnd(a + Encode(c)) == if WhiteSpace(c) then |Encode(c)| else 0
  {
    var s := a + Encode(c);
    if c < 0x80 {
      assert s[|s| - 1] == c;
    } else if c < 0x800 {
      EndOfTwo(a, c);
    } else if c < 0x1_0000 {
      EndOfThree(a, c);
    } else {
      EndOfFour(a, c);
    }
  }

  /** A text starts with white space exactly when its first code point is white space, and then all of it. */
  lemma SpaceIsWhiteSpace(c: int, rest: bytes)
    requires Scalar(c)
    ensures SpaceAt(Encode(c) + rest) == if WhiteSpace(c) then |Encode(c)| else 0
  {
    var s := Encode(c) + rest;
    if c < 0x80 {
      assert s[0] == c;
    } else if c < 0x800 {
      SpaceOfTwo(c, rest);
    } else if c < 0x1_0000 {
      SpaceOfThree(c, rest);
    } else {
      assert s[0] == 0xF0 + c / 262_144;
    }
  }
}
