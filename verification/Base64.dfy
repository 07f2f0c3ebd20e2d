/**
 Base64 as section 4 of RFC 4648 defines it, with and without padding, and the sizes the
 repository's limits are built on.
 */
module Base64 {
  import opened Wrappers
  import opened Bytes

  type sextet = x: int | 0 <= x < 64

  const PAD: byte := 0x3D

  /** Symbol `v` of the alphabet: A-Z, a-z, 0-9, '+', '/'. */
  function Symbol(v: sextet): byte
  {
    if v < 26 then 0x41 + v
    else if v < 52 then 0x61 + v - 26
    else if v < 62 then 0x30 + v - 52
    else if v == 62 then 0x2B
    else 0x2F
  }

  function Value(c: byte): Option<sextet>
  {
    if 0x41 <= c <= 0x5A then Some(c - 0x41)
    else if 0x61 <= c <= 0x7A then Some(c - 0x61 + 26)
    else if 0x30 <= c <= 0x39 then Some(c - 0x30 + 52)
    else if c == 0x2B then Some(62)
    else if c == 0x2F then Some(63)
    else None
  }

  function Quad(a: byte, b: byte, c: byte): bytes
  {
    [Symbol(a / 4), Symbol(a % 4 * 16 + b / 16), Symbol(b % 16 * 4 + c / 64), Symbol(c % 64)]
  }

  /** Encoding without padding. */
  function EncodeRaw(data: bytes): bytes
  {
    if data == [] then []
    else if |data| == 1 then Quad(data[0], 0, 0)[..2]
    else if |data| == 2 then Quad(data[0], data[1], 0)[..3]
    else Quad(data[0], data[1], data[2]) + EncodeRaw(data[3..])
  }

  /** The bytes of a quad of values. */
  function Byte1(v0: sextet, v1: sextet): byte
  {
    v0 * 4 + v1 / 16
  }

  function Byte2(v1: sextet, v2: sextet): byte
  {
    v1 % 16 * 16 + v2 / 4
  }

  function Byte3(v2: sextet, v3: sextet): byte
  {
    v2 % 4 * 64 + v3
  }

  /** Decoding without padding. A strict decoder refuses left-over bits that are not zero. */
  function DecodeRaw(s: bytes, strict: bool): Option<bytes>
  {
    if s == [] then Some([])
    else if |s| == 1 then None
    else
      var v0, v1 := Value(s[0]), Value(s[1]);
      if v0.None? || v1.None? then None
      else if |s| == 2 then
        if strict && v1.value % 16 != 0 then None else Some([Byte1(v0.value, v1.value)])
      else
        var v2 := Value(s[2]);
        if v2.None? then None
        else if |s| == 3 then
          if strict && v2.value % 4 != 0 then None
          else Some([Byte1(v0.value, v1.value), Byte2(v1.value, v2.value)])
        else
          var v3, rest := Value(s[3]), DecodeRaw(s[4..], strict);
          if v3.None? || rest.None? then None
          else Some([Byte1(v0.value, v1.value), Byte2(v1.value, v2.value), Byte3(v2.value, v3.value)] + rest.value)
  }

  function Padding(n: nat): (p: bytes)
    ensures |p| == n && forall i :: 0 <= i < n ==> p[i] == PAD
  {
    if n == 0 then [] else [PAD] + Padding(n - 1)
  }

  /** How many pad symbols bring a length to a multiple of four: (-n) mod 4. */
  function Missing(n: nat): (k: nat)
    ensures k < 4 && (n + k) % 4 == 0
  {
    (4 - n % 4) % 4
  }

  function Encode(data: bytes): bytes
  {
    var raw := EncodeRaw(data);
    raw + Padding(Missing(|raw|))
  }

  /** Removes up to `limit` pad symbols from the end. */
  function StripPad(s: bytes, limit: nat): bytes
  {
    if limit > 0 && s != [] && s[|s| - 1] == PAD then StripPad(s[..|s| - 1], limit - 1) else s
  }

  function Decode(s: bytes, strict: bool): Option<bytes>
  {
    if |s| % 4 != 0 then None else DecodeRaw(StripPad(s, 2), strict)
  }

  /** server.py keeps salts and hashes without padding ... */
  function NoPad(data: bytes): bytes
  {
    var s := Encode(data);
    StripPad(s, |s|)
  }

  /** ... and puts the padding back before decoding. */
  function DecodeNoPad(s: bytes): Option<bytes>
  {
    Decode(s + Padding(Missing(|s|)), false)
  }

  // ---------------------------------------------------------------- the code, by the numbers

  /** Three bytes and their four symbols are the same 24 bits, most significant first. */
  lemma QuadIsNumber(a: byte, b: byte, c: byte)
    ensures var q := Quad(a, b, c);
      && |q| == 4 && (forall i :: 0 <= i < 4 ==> Value(q[i]).Some?)
      && 0x4_0000 * Value(q[0]).value + 0x1000 * Value(q[1]).value + 0x40 * Value(q[2]).value + Value(q[3]).value
         == 0x1_0000 * (a as int) + 0x100 * (b as int) + c
  {
    SymbolValue(a / 4);
    SymbolValue(a % 4 * 16 + b / 16);
    SymbolValue(b % 16 * 4 + c / 64);
    SymbolValue(c % 64);
    BitsMove(a, b, c);
  }

  lemma BitsMove(a: byte, b: byte, c: byte)
    ensures 0x4_0000 * (a / 4) + 0x1000 * (a % 4 * 16 + b / 16) + 0x40 * (b % 16 * 4 + c / 64) + c % 64
         == 0x1_0000 * (a as int) + 0x100 * (b as int) + c
  {
    assert a as int == 4 * (a / 4) + a % 4 && b as int == 16 * (b / 16) + b % 16 && c as int == 64 * (c / 64) + c % 64;
  }

  // ---------------------------------------------------------------- sizes and alphabet

  lemma {:induction false} RawShape(data: bytes)
    ensures |EncodeRaw(data)| == (4 * |data| + 2) / 3
    ensures forall c :: c in EncodeRaw(data) ==> Value(c).Some?
    ensures EncodeRaw(data) != [] ==> EncodeRaw(data)[|EncodeRaw(data)| - 1] != PAD
  {
    if |data| >= 3 {
      RawShape(data[3..]);
    }
    var raw := EncodeRaw(data);
    assert raw != [] ==> raw[|raw| - 1] in raw;
  }

  /** Four symbols for every three bytes or part of three. */
  lemma EncodedSize(data: bytes)
    ensures |Encode(data)| == 4 * ((|data| + 2) / 3)
  {
    RawShape(data);
    PaddedLength(|data|);
  }

  lemma PaddedLength(k: nat)
    ensures var n := (4 * k + 2) / 3; n + Missing(n) == 4 * ((k + 2) / 3)
  {
    var q, r := k / 3, k % 3;
    assert k == 3 * q + r;
    assert (4 * k + 2) / 3 == 4 * q + if r == 0 then 0 else r + 1;
  }

  /** Every encoded byte is a visible character other than the protocol's delimiters. */
  lemma EncodedAlphabet(data: bytes)
    ensures forall c :: c in Encode(data) ==> Visible(c)
    ensures forall c :: c in Encode(data) ==> c != NUL && c != SEMICOLON && c != COLON && c != BAR
  {
    RawShape(data);
  }

  // ---------------------------------------------------------------- round trips

  lemma SymbolValue(v: sextet)
    ensures Value(Symbol(v)) == Some(v)
  {
  }

  /** The four symbols of three bytes carry those bytes. */
  lemma QuadCarries(a: byte, b: byte, c: byte)
    ensures var q := Quad(a, b, c);
      var v0, v1, v2, v3 := a / 4, a % 4 * 16 + b / 16, b % 16 * 4 + c / 64, c % 64;
      && Value(q[0]) == Some(v0) && Value(q[1]) == Some(v1) && Value(q[2]) == Some(v2) && Value(q[3]) == Some(v3)
      && Byte1(v0, v1) == a && Byte2(v1, v2) == b && Byte3(v2, v3) == c
      && (b == 0 ==> v1 % 16 == 0) && (c == 0 ==> v2 % 4 == 0)
  {
    SymbolValue(a / 4);
    SymbolValue(a % 4 * 16 + b / 16);
    SymbolValue(b % 16 * 4 + c / 64);
    SymbolValue(c % 64);
    assert (a % 4 * 16 + b / 16) / 16 == a % 4;
    assert (b % 16 * 4 + c / 64) / 4 == b % 16;
  }

  /** The symbol stands for the value. */
  predicate Stands(c: byte, v: sextet)
  {
    Value(c) == Some(v)
  }

  lemma DecodeTwo(x: byte, y: byte, v0: sextet, v1: sextet, strict: bool)
    requires Stands(x, v0) && Stands(y, v1) && v1 % 16 == 0
    ensures DecodeRaw([x, y], strict) == Some([Byte1(v0, v1)])
  {
  }

  lemma DecodeThree(x: byte, y: byte, z: byte, v0: sextet, v1: sextet, v2: sextet, strict: bool)
    requires Stands(x, v0) && Stands(y, v1) && Stands(z, v2) && v2 % 4 == 0
    ensures DecodeRaw([x, y, z], strict) == Some([Byte1(v0, v1), Byte2(v1, v2)])
  {
  }

  lemma DecodeFour(q: bytes, rest: bytes, v0: sextet, v1: sextet, v2: sextet, v3: sextet, strict: bool)
    requires |q| == 4 && Stands(q[0], v0) && Stands(q[1], v1) && Stands(q[2], v2) && Stands(q[3], v3)
    requires DecodeRaw(rest, strict).Some?
    ensures DecodeRaw(q + rest, strict)
         == Some([Byte1(v0, v1), Byte2(v1, v2), Byte3(v2, v3)] + DecodeRaw(rest, strict).value)
  {
    var s := q + rest;
    assert s[4..] == rest && s[0] == q[0] && s[1] == q[1] && s[2] == q[2] && s[3] == q[3];
  }

  lemma EncodedOne(a: byte) returns (x: byte, y: byte, v0: sextet, v1: sextet)
    ensures EncodeRaw([a]) == [x, y]
    ensures Stands(x, v0) && Stands(y, v1) && v1 % 16 == 0 && Byte1(v0, v1) == a
  {
    var q := Quad(a, 0, 0);
    QuadCarries(a, 0, 0);
    x, y, v0, v1 := q[0], q[1], a / 4, a % 4 * 16;
  }

  lemma EncodedTwo(a: byte, b: byte) returns (x: byte, y: byte, z: byte, v0: sextet, v1: sextet, v2: sextet)
    ensures EncodeRaw([a, b]) == [x, y, z]
    ensures Stands(x, v0) && Stands(y, v1) && Stands(z, v2) && v2 % 4 == 0
    ensures Byte1(v0, v1) == a && Byte2(v1, v2) == b
  {
    var q := Quad(a, b, 0);
    QuadCarries(a, b, 0);
    x, y, z, v0, v1, v2 := q[0], q[1], q[2], a / 4, a % 4 * 16 + b / 16, b % 16 * 4;
  }

  lemma EncodedThree(a: byte, b: byte, c: byte, rest: bytes)
    returns (q: bytes, v0: sextet, v1: sextet, v2: sextet, v3: sextet)
    ensures |q| == 4 && EncodeRaw([a, b, c] + rest) == q + EncodeRaw(rest)
    ensures Stands(q[0], v0) && Stands(q[1], v1) && Stands(q[2], v2) && Stands(q[3], v3)
    ensures Byte1(v0, v1) == a && Byte2(v1, v2) == b && Byte3(v2, v3) == c
  {
    QuadCarries(a, b, c);
    QuadFirst(a, b, c, rest);
    q, v0, v1, v2, v3 := Quad(a, b, c), a / 4, a % 4 * 16 + b / 16, b % 16 * 4 + c / 64, c % 64;
  }

  lemma QuadFirst(a: byte, b: byte, c: byte, rest: bytes)
    ensures EncodeRaw([a, b, c] + rest) == Quad(a, b, c) + EncodeRaw(rest)
  {
    var data := [a, b, c] + rest;
    assert data[0] == a && data[1] == b && data[2] == c && data[3..] == rest;
  }

  lemma {:induction false} RawRoundTrip(data: bytes, strict: bool)
    ensures DecodeRaw(EncodeRaw(data), strict) == Some(data)
  {
    if |data| == 1 {
      assert data == [data[0]];
      var x, y, v0, v1 := EncodedOne(data[0]);
      DecodeTwo(x, y, v0, v1, strict);
    } else if |data| == 2 {
      assert data == [data[0], data[1]];
      var x, y, z, v0, v1, v2 := EncodedTwo(data[0], data[1]);
      DecodeThree(x, y, z, v0, v1, v2, strict);
    } else if |data| >= 3 {
      RawRoundTrip(data[3..], strict);
      RawRoundTripThree(data[0], data[1], data[2], data[3..], strict);
      assert data == [data[0], data[1], data[2]] + data[3..];
    }
  }

  lemma RawRoundTripThree(a: byte, b: byte, c: byte, rest: bytes, strict: bool)
    requires DecodeRaw(EncodeRaw(rest), strict) == Some(rest)
    ensures DecodeRaw(EncodeRaw([a, b, c] + rest), strict) == Some([a, b, c] + rest)
  {
    var q, v0, v1, v2, v3 := EncodedThree(a, b, c, rest);
    DecodeFour(q, EncodeRaw(rest), v0, v1, v2, v3, strict);
  }

  lemma {:induction false} StripRaw(raw: bytes, k: nat, limit: nat)
    requires raw == [] || raw[|raw| - 1] != PAD
    requires k <= limit
    ensures StripPad(raw + Padding(k), limit) == raw
  {
    var s := raw + Padding(k);
    if k == 0 {
      assert s == raw;
    } else {
      assert s[..|s| - 1] == raw + Padding(k - 1);
      StripRaw(raw, k - 1, limit - 1);
    }
  }

  /** Decoding, strict or not, inverts padded encoding. */
  lemma RoundTrip(data: bytes, strict: bool)
    ensures Decode(Encode(data), strict) == Some(data)
  {
    var raw := EncodeRaw(data);
    RawShape(data);
    AtMostTwoMissing(|data|);
    StripRaw(raw, Missing(|raw|), 2);
    RawRoundTrip(data, strict);
  }

  lemma AtMostTwoMissing(n: nat)
    ensures Missing((4 * n + 2) / 3) <= 2
  {
    var q, r := n / 3, n % 3;
    assert (4 * n + 2) / 3 == 4 * q + (4 * r + 2) / 3;
    assert r == 0 || r == 1 || r == 2;
  }

  /** Stripping the padding leaves the unpadded encoding, and restoring it inverts the stripping. */
  lemma NoPadRoundTrip(data: bytes)
    ensures NoPad(data) == EncodeRaw(data)
    ensures DecodeNoPad(NoPad(data)) == Some(data)
  {
    var raw := EncodeRaw(data);
    RawShape(data);
    StripRaw(raw, Missing(|raw|), |Encode(data)|);
    RoundTrip(data, false);
  }
}
